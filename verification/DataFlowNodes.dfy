/** Data-flow nodes (include/ppc2cpp/data_flow/DataFlowNode.hpp), and what their definitions and operands are in terms
    of definition sites. */
module DataFlowNodes {
  import opened Wrappers
  import opened Instructions
  import opened MachineCode
  import opened ControlFlowGraphs
  import opened FlowContexts
  import opened ReachingDefinitions

  datatype NodeKind =
    | ResultNode(opindex: nat, location: Location)
    | CallReturnNode(location: Location)
    | FunctionInputNode(location: Location)
    | ImmediateNode(opindex: nat, value: int)
    | ReferenceNode(opindex: nat, reloc: Relocation)
    | PhiNode(location: Location)
    | SinkNode
    | ReturnNode(location: Location)

  /** Nodes are numbered in order of creation.  `block` is the block whose visit created the node; the code does
      not store it, and nothing but specifications reads it. */
  datatype Node = Node(kind: NodeKind, index: nat, inputs: seq<nat>, block: nat)

  predicate IsDefinition(n: Node) {
    (n.kind.ResultNode? || n.kind.CallReturnNode?) && Known(n.kind.location)
  }

  function SiteOf(n: Node): Site
    requires IsDefinition(n)
  {
    Site(n.block, n.index, CellOf(n.kind.location).value, n.kind.CallReturnNode?)
  }

  /** The sites of the definitions in a set of nodes. */
  function Sites(nodes: seq<Node>, ids: set<nat>): set<Site> {
    set id | id in ids && id < |nodes| && IsDefinition(nodes[id]) :: SiteOf(nodes[id])
  }

  function SiteContext(nodes: seq<Node>, ctx: Context<nat>): Context<Site> {
    map c | c in ctx :: Sites(nodes, ctx[c])
  }

  ghost predicate Definitions(nodes: seq<Node>, ids: set<nat>) {
    forall id :: id in ids ==> id < |nodes| && IsDefinition(nodes[id])
  }

  ghost predicate InCell(nodes: seq<Node>, ids: set<nat>, c: Cell) {
    forall id :: id in ids && id < |nodes| && IsDefinition(nodes[id]) ==> CellOf(nodes[id].kind.location) == Some(c)
  }

  /** Each cell holds definitions of that cell. */
  ghost predicate DefinitionsOnly(nodes: seq<Node>, ctx: Context<nat>) {
    Total(ctx) && forall c :: c in AllCells() ==> Definitions(nodes, ctx[c]) && InCell(nodes, ctx[c], c)
  }

  /** The node was made for an instruction in the range of the block that was visited. */
  ghost predicate ByInstruction(f: Problem, n: Node) {
    f.graph.Internal(n.block) && Holds(f.graph.blocks[n.block], n.index) && n.index < |f.code|
  }

  /** The node stands for what its instruction does: a listed result, a return value of its call, a store or branch,
      or a return value of the function at the end of an exit block. */
  ghost predicate Rightful(f: Problem, n: Node) {
    match n.kind
    case ResultNode(i, location) =>
      && ByInstruction(f, n) && Known(location)
      && i < |f.code[n.index].outputs| && f.code[n.index].outputs[i] == location
    case CallReturnNode(location) =>
      ByInstruction(f, n) && Known(location) && IsCall(f, n.block, n.index) && location in f.definedByCall
    case SinkNode => ByInstruction(f, n) && MakesSink(f.code[n.index])
    case ReturnNode(location) =>
      && ByInstruction(f, n) && |n.inputs| == 1 && location in f.definedByCall
      && f.graph.blocks[n.block].isExit && n.index == f.graph.blocks[n.block].end
    case _ => true
  }

  function Elements(s: seq<nat>): set<nat> { set k | k in s }

  /** Nodes that carry an instruction's operands: its results, its sink and the return values of its call. */
  predicate CarriesOperands(n: Node) { n.kind.ResultNode? || n.kind.CallReturnNode? || n.kind.SinkNode? }

  predicate DefinesSame(nodes: seq<Node>, id: nat, loc: Location) {
    id < |nodes| && IsDefinition(nodes[id]) && SameRegister(nodes[id].kind.location, loc)
  }

  /** An input of the function in the register, a definition of it, or a phi node over two or more. */
  predicate ReadsSome(nodes: seq<Node>, id: nat, loc: Location) {
    && id < |nodes|
    && match nodes[id].kind
       case FunctionInputNode(l) => l == loc
       case PhiNode(l) =>
         l == loc && 2 <= |nodes[id].inputs|
         && forall k :: 0 <= k < |nodes[id].inputs| ==> DefinesSame(nodes, nodes[id].inputs[k], loc)
       case _ => DefinesSame(nodes, id, loc)
  }

  /** Input `i` of an instruction: a node for its reference or immediate, or what its register holds. */
  predicate ReadsInput(nodes: seq<Node>, id: nat, insn: Insn, i: nat)
    requires i < |insn.refs| + |insn.imms| + |insn.inputs|
  {
    var (r, m) := (|insn.refs|, |insn.imms|);
    if i < r then id < |nodes| && nodes[id].kind == ReferenceNode(i, insn.refs[i])
    else if i < r + m then id < |nodes| && nodes[id].kind == ImmediateNode(i - r, insn.imms[i - r])
    else ReadsSome(nodes, id, insn.inputs[i - r - m])
  }

  /** Nodes for the instruction's references, then for its immediates, then for its registers. */
  predicate ReadsInsn(nodes: seq<Node>, ids: seq<nat>, insn: Insn) {
    && |ids| == |insn.refs| + |insn.imms| + |insn.inputs|
    && forall i :: 0 <= i < |ids| ==> ReadsInput(nodes, ids[i], insn, i)
  }

  /** A node's inputs exist before it, a phi node joins distinct definitions, the node is rightful, and it reads what
      its instruction lists. */
  ghost predicate WellMade(f: Problem, nodes: seq<Node>, id: nat)
    requires id < |nodes|
  {
    var n := nodes[id];
    && (forall i :: 0 <= i < |n.inputs| ==> n.inputs[i] < id)
    && (n.kind.PhiNode? ==>
          |Elements(n.inputs)| == |n.inputs| && forall i :: 0 <= i < |n.inputs| ==> IsDefinition(nodes[n.inputs[i]]))
    && Rightful(f, n)
    && (CarriesOperands(n) ==> ReadsInsn(nodes, n.inputs, f.code[n.index]))
  }

  /** Stores and branches are sinks. */
  predicate MakesSink(insn: Insn) { insn.isStore || insn.kind.Branch? }

  ghost predicate AllWellMade(f: Problem, nodes: seq<Node>) {
    forall id :: 0 <= id < |nodes| ==> WellMade(f, nodes, id)
  }

  lemma RightfulIndex(f: Problem, n: Node)
    requires Rightful(f, n)
    ensures CarriesOperands(n) ==> n.index < |f.code|
  {
  }

  lemma ReadsSomeStable(nodes: seq<Node>, nodes': seq<Node>, id: nat, loc: Location)
    requires nodes <= nodes' && ReadsSome(nodes, id, loc)
    ensures ReadsSome(nodes', id, loc)
  {
    hide IsDefinition, SameRegister;
    if nodes[id].kind.PhiNode? {
      forall k | 0 <= k < |nodes[id].inputs|
        ensures DefinesSame(nodes', nodes[id].inputs[k], loc)
      {
        assert DefinesSame(nodes, nodes[id].inputs[k], loc);
      }
    }
  }

  lemma ReadsInsnStable(nodes: seq<Node>, nodes': seq<Node>, ids: seq<nat>, insn: Insn)
    requires nodes <= nodes' && ReadsInsn(nodes, ids, insn)
    ensures ReadsInsn(nodes', ids, insn)
  {
    hide ReadsSome;
    forall i | 0 <= i < |ids|
      ensures ReadsInput(nodes', ids[i], insn, i)
    {
      assert ReadsInput(nodes, ids[i], insn, i);
      var k := i - |insn.refs| - |insn.imms|;
      if k >= 0 { ReadsSomeStable(nodes, nodes', ids[i], insn.inputs[k]); }
    }
  }

  lemma AppendWellMade(f: Problem, nodes: seq<Node>, n: Node)
    requires AllWellMade(f, nodes) && WellMade(f, nodes + [n], |nodes|)
    ensures AllWellMade(f, nodes + [n])
  {
    hide AllCells, Known, Rightful, ReadsInsn;
    var nodes' := nodes + [n];
    forall id | 0 <= id < |nodes'|
      ensures WellMade(f, nodes', id)
    {
      if id < |nodes| {
        assert WellMade(f, nodes, id);
        RightfulIndex(f, nodes[id]);
        if CarriesOperands(nodes[id]) {
          ReadsInsnStable(nodes, nodes', nodes[id].inputs, f.code[nodes[id].index]);
        }
        assert nodes'[id] == nodes[id];
        assert forall k :: 0 <= k < |nodes| ==> nodes'[k] == nodes[k];
      }
    }
  }

  /** Creating nodes does not change what earlier nodes stand for. */
  lemma SitesStable(nodes: seq<Node>, nodes': seq<Node>, ids: set<nat>)
    requires nodes <= nodes' && Definitions(nodes, ids)
    ensures Sites(nodes', ids) == Sites(nodes, ids) && Definitions(nodes', ids)
  {
    hide IsDefinition;
  }

  lemma SiteContextStable(nodes: seq<Node>, nodes': seq<Node>, ctx: Context<nat>)
    requires nodes <= nodes' && DefinitionsOnly(nodes, ctx)
    ensures SiteContext(nodes', ctx) == SiteContext(nodes, ctx) && DefinitionsOnly(nodes', ctx)
  {
    hide AllCells, Sites, Definitions, InCell;
    forall c | c in AllCells()
      ensures Sites(nodes', ctx[c]) == Sites(nodes, ctx[c]) && Definitions(nodes', ctx[c])
      ensures InCell(nodes', ctx[c], c)
    {
      SitesStable(nodes, nodes', ctx[c]);
      InCellStable(nodes, nodes', ctx[c], c);
    }
  }

  lemma InCellStable(nodes: seq<Node>, nodes': seq<Node>, ids: set<nat>, c: Cell)
    requires nodes <= nodes' && Definitions(nodes, ids) && InCell(nodes, ids, c)
    ensures InCell(nodes', ids, c)
  {
    hide IsDefinition, CellOf;
  }

  // ---- Operands and sinks ----

  /** What an instruction reads: a reference, an immediate, a register nothing in the function has defined, or the
      definitions of a register. */
  datatype Operand =
    | RefOperand(reloc: Relocation)
    | ImmOperand(value: int)
    | InputOperand(location: Location)
    | DefOperand(sites: set<Site>)

  datatype Shape =
    | SinkShape(pc: nat, operands: seq<Operand>)
    | ReturnShape(pc: nat, location: Location, operand: Operand)

  /** What an input node stands for. */
  function OperandOf(nodes: seq<Node>, id: nat): Operand
    requires id < |nodes|
  {
    match nodes[id].kind
    case ReferenceNode(_, reloc) => RefOperand(reloc)
    case ImmediateNode(_, value) => ImmOperand(value)
    case FunctionInputNode(location) => InputOperand(location)
    case PhiNode(_) => DefOperand(Sites(nodes, set k | k in nodes[id].inputs))
    case _ => DefOperand(Sites(nodes, {id}))
  }

  function OperandsOf(nodes: seq<Node>, ids: seq<nat>): (r: seq<Operand>)
    requires forall i :: 0 <= i < |ids| ==> ids[i] < |nodes|
    ensures |r| == |ids|
  {
    seq(|ids|, i requires 0 <= i < |ids| => OperandOf(nodes, ids[i]))
  }

  predicate IsSink(n: Node) { n.kind.SinkNode? || n.kind.ReturnNode? }

  function ShapeOf(nodes: seq<Node>, id: nat): Shape
    requires id < |nodes| && IsSink(nodes[id])
    requires forall i :: 0 <= i < |nodes[id].inputs| ==> nodes[id].inputs[i] < |nodes|
    requires nodes[id].kind.ReturnNode? ==> |nodes[id].inputs| == 1
  {
    var operands := OperandsOf(nodes, nodes[id].inputs);
    if nodes[id].kind.SinkNode? then SinkShape(nodes[id].index, operands)
    else ReturnShape(nodes[id].index, nodes[id].kind.location, operands[0])
  }

  ghost predicate Sinks(f: Problem, nodes: seq<Node>, ids: seq<nat>) {
    && AllWellMade(f, nodes)
    && forall i :: 0 <= i < |ids| ==> ids[i] < |nodes| && IsSink(nodes[ids[i]])
  }

  ghost function ShapesOf(f: Problem, nodes: seq<Node>, ids: seq<nat>): (r: seq<Shape>)
    requires Sinks(f, nodes, ids)
    ensures |r| == |ids|
  {
    seq(|ids|, i requires 0 <= i < |ids| => assert WellMade(f, nodes, ids[i]); ShapeOf(nodes, ids[i]))
  }

  lemma OperandStable(f: Problem, nodes: seq<Node>, nodes': seq<Node>, id: nat)
    requires nodes <= nodes' && AllWellMade(f, nodes) && id < |nodes|
    ensures OperandOf(nodes', id) == OperandOf(nodes, id)
  {
    hide AllCells, Known, Rightful;
    assert WellMade(f, nodes, id);
    var inputs := set k | k in nodes[id].inputs;
    if nodes[id].kind.PhiNode? { SitesStable(nodes, nodes', inputs); }
    if IsDefinition(nodes[id]) { SitesStable(nodes, nodes', {id}); }
  }

  lemma OperandsStable(f: Problem, nodes: seq<Node>, nodes': seq<Node>, ids: seq<nat>)
    requires nodes <= nodes' && AllWellMade(f, nodes)
    requires forall i :: 0 <= i < |ids| ==> ids[i] < |nodes|
    ensures OperandsOf(nodes', ids) == OperandsOf(nodes, ids)
  {
    hide OperandOf, AllWellMade;
    forall i | 0 <= i < |ids|
      ensures OperandOf(nodes', ids[i]) == OperandOf(nodes, ids[i])
    {
      OperandStable(f, nodes, nodes', ids[i]);
    }
  }

  lemma ShapesStable(f: Problem, nodes: seq<Node>, nodes': seq<Node>, ids: seq<nat>)
    requires nodes <= nodes' && Sinks(f, nodes, ids) && AllWellMade(f, nodes')
    ensures Sinks(f, nodes', ids) && ShapesOf(f, nodes', ids) == ShapesOf(f, nodes, ids)
  {
    hide OperandsOf;
    forall i | 0 <= i < |ids|
      ensures ShapesOf(f, nodes', ids)[i] == ShapesOf(f, nodes, ids)[i]
    {
      assert WellMade(f, nodes, ids[i]);
      OperandsStable(f, nodes, nodes', nodes[ids[i]].inputs);
    }
  }

  /** The nodes made since `from` that carry operands carry these, for instruction `pc` of block `b`. */
  ghost predicate MadeAt(f: Problem, nodes: seq<Node>, from: nat, b: nat, pc: nat, operands: seq<Operand>)
    requires AllWellMade(f, nodes)
  {
    forall id :: from <= id < |nodes| && CarriesOperands(nodes[id]) ==>
      && nodes[id].block == b && nodes[id].index == pc
      && (assert WellMade(f, nodes, id); OperandsOf(nodes, nodes[id].inputs)) == operands
  }

  /** The nodes made since `from`, by a visit to block `b` that has come to `pc`, carry the operands their
      instructions have if `entry` holds at the start of the block. */
  ghost predicate MadeIn(f: Problem, nodes: seq<Node>, from: nat, b: nat, pc: nat, entry: Context<Site>)
    requires AllWellMade(f, nodes) && b < |f.graph.blocks| && pc <= |f.code|
  {
    forall id :: from <= id < |nodes| && CarriesOperands(nodes[id]) ==>
      && nodes[id].block == b && f.Start(b) <= nodes[id].index < pc
      && (assert WellMade(f, nodes, id); OperandsOf(nodes, nodes[id].inputs))
         == ExpectedOperands(f.code[nodes[id].index], Before(f, b, nodes[id].index, entry))
  }

  /** No node made since `from` carries operands. */
  ghost predicate NoneMade(nodes: seq<Node>, from: nat) {
    forall id :: from <= id < |nodes| ==> !CarriesOperands(nodes[id])
  }

  lemma MadeAtStable(f: Problem, nodes: seq<Node>, nodes': seq<Node>, from: nat, b: nat, pc: nat,
                     operands: seq<Operand>)
    requires AllWellMade(f, nodes) && MadeAt(f, nodes, from, b, pc, operands) && nodes <= nodes'
    requires AllWellMade(f, nodes') && MadeAt(f, nodes', |nodes|, b, pc, operands)
    ensures MadeAt(f, nodes', from, b, pc, operands)
  {
    hide Rightful, OperandsOf;
    forall id | from <= id < |nodes|
      ensures WellMade(f, nodes, id) && OperandsOf(nodes', nodes[id].inputs) == OperandsOf(nodes, nodes[id].inputs)
    {
      assert WellMade(f, nodes, id);
      OperandsStable(f, nodes, nodes', nodes[id].inputs);
    }
  }

  lemma NoneMadeAt(f: Problem, nodes: seq<Node>, from: nat, b: nat, pc: nat, operands: seq<Operand>)
    requires AllWellMade(f, nodes) && NoneMade(nodes, from)
    ensures MadeAt(f, nodes, from, b, pc, operands)
  {
  }

  lemma MadeInStep(f: Problem, nodes: seq<Node>, nodes': seq<Node>, from: nat, b: nat, pc: nat, entry: Context<Site>)
    requires b < |f.graph.blocks| && f.Start(b) <= pc < |f.code|
    requires AllWellMade(f, nodes) && MadeIn(f, nodes, from, b, pc, entry) && nodes <= nodes' && AllWellMade(f, nodes')
    requires MadeAt(f, nodes', |nodes|, b, pc, ExpectedOperands(f.code[pc], Before(f, b, pc, entry)))
    ensures MadeIn(f, nodes', from, b, pc + 1, entry)
  {
    hide Rightful, OperandsOf, ExpectedOperands, Before;
    forall id | from <= id < |nodes|
      ensures WellMade(f, nodes, id) && OperandsOf(nodes', nodes[id].inputs) == OperandsOf(nodes, nodes[id].inputs)
    {
      assert WellMade(f, nodes, id);
      OperandsStable(f, nodes, nodes', nodes[id].inputs);
    }
  }

  // ---- What the sinks of a block should be ----

  /** What reading a register gives, if its cell holds these definitions. */
  function Read(location: Location, sites: set<Site>): Operand {
    if sites == {} then InputOperand(location) else DefOperand(sites)
  }

  function ReadAt(location: Location, at: Context<Site>): Operand {
    if Known(location) && CellOf(location).value in at then Read(location, at[CellOf(location).value])
    else InputOperand(location)
  }

  /** References, then immediates, then registers. */
  function ExpectedOperands(insn: Insn, at: Context<Site>): seq<Operand> {
    seq(|insn.refs|, i requires 0 <= i < |insn.refs| => RefOperand(insn.refs[i]))
    + seq(|insn.imms|, i requires 0 <= i < |insn.imms| => ImmOperand(insn.imms[i]))
    + seq(|insn.inputs|, i requires 0 <= i < |insn.inputs| => ReadAt(insn.inputs[i], at))
  }

  /** The definitions just before instruction `pc` of block `b`, if `entry` holds at its start. */
  ghost function Before(f: Problem, b: nat, pc: nat, entry: Context<Site>): Context<Site>
    requires b < |f.graph.blocks| && pc <= |f.code|
  {
    map c | c in entry :: Through(f, b, pc, c, entry[c])
  }

  /** One sink per store or branch of the block before `pc`, in order. */
  ghost function ExpectedSinks(f: Problem, b: nat, pc: nat, entry: Context<Site>): seq<Shape>
    requires b < |f.graph.blocks| && pc <= |f.code|
  {
    if pc <= f.Start(b) then []
    else ExpectedSinks(f, b, pc - 1, entry)
         + if MakesSink(f.code[pc - 1])
           then [SinkShape(pc - 1, ExpectedOperands(f.code[pc - 1], Before(f, b, pc - 1, entry)))] else []
  }

  /** One return per register in which the function may return something, if the block defines it. */
  function ExpectedReturns(end: nat, locations: seq<Location>, at: Context<Site>): seq<Shape> {
    if locations == [] then []
    else
      var rest := locations[..|locations| - 1];
      var last := locations[|locations| - 1];
      ExpectedReturns(end, rest, at)
      + if ReadAt(last, at).DefOperand? then [ReturnShape(end, last, ReadAt(last, at))] else []
  }

  ghost function ExpectedShapes(f: Problem, b: nat, entry: Context<Site>): seq<Shape>
    requires f.Valid() && f.graph.Internal(b)
  {
    ExpectedSinks(f, b, f.Stop(b), entry)
    + if f.graph.blocks[b].isExit
      then ExpectedReturns(f.graph.blocks[b].end, f.definedByCall, Before(f, b, f.Stop(b), entry)) else []
  }
}
