/** When two functions' flows are equal: the plain recursive comparison, and what it means. */
module FlowEquivalence {
  import opened MachineCode
  import opened ControlFlowGraphs
  import opened DataFlowNodes

  /** A function after both analyses. */
  datatype Flow = Flow(code: seq<Insn>, graph: Graph, nodes: seq<Node>, sinks: seq<seq<nat>>) {
    ghost predicate Valid() {
      && |graph.blocks| == |sinks| && |graph.blocks| <= |graph.psTable|
      && (forall i, k :: 0 <= i < |nodes| && 0 <= k < |nodes[i].inputs| ==> nodes[i].inputs[k] < i)
      && (forall i :: 0 <= i < |nodes| && Located(nodes[i].kind) ==> nodes[i].index < |code|)
      && (forall b, k :: 0 <= b < |sinks| && 0 <= k < |sinks[b]| ==> sinks[b][k] < |nodes|)
    }
  }

  /** Nodes compared by the opcode of their instruction and the block it is found in. */
  predicate Located(kind: NodeKind) { kind.SinkNode? || kind.ReturnNode? || kind.ResultNode? }

  predicate SameType(a: NodeKind, b: NodeKind) {
    match a
    case ResultNode(_, _) => b.ResultNode?
    case CallReturnNode(_) => b.CallReturnNode?
    case FunctionInputNode(_) => b.FunctionInputNode?
    case ImmediateNode(_, _) => b.ImmediateNode?
    case ReferenceNode(_, _) => b.ReferenceNode?
    case PhiNode(_) => b.PhiNode?
    case SinkNode => b.SinkNode?
    case ReturnNode(_) => b.ReturnNode?
  }

  /** References to global symbols: name, relocation type and addend. */
  predicate CompareRelocations(a: Relocation, b: Relocation) {
    a.symbol == b.symbol && a.relType == b.relType && a.addend == b.addend
  }

  /** The comparison of two nodes without their inputs. */
  predicate LocalMatch(f1: Flow, f2: Flow, i: nat, j: nat)
    requires f1.Valid() && f2.Valid() && i < |f1.nodes| && j < |f2.nodes|
  {
    var (n1, n2) := (f1.nodes[i], f2.nodes[j]);
    && SameType(n1.kind, n2.kind)
    && if Located(n1.kind) then
         && f1.code[n1.index].opcode == f2.code[n2.index].opcode
         && FirstHolding(f1.graph.blocks, n1.index) == FirstHolding(f2.graph.blocks, n2.index)
         && FirstHolding(f1.graph.blocks, n1.index) != -1
       else match n1.kind
         case FunctionInputNode(location) => location == n2.kind.location
         case ImmediateNode(_, value) => value == n2.kind.value
         case ReferenceNode(_, reloc) => CompareRelocations(reloc, n2.kind.reloc)
         case _ => true
  }

  /** The comparison without a cache. */
  ghost predicate Match(f1: Flow, f2: Flow, i: nat, j: nat)
    requires f1.Valid() && f2.Valid() && i < |f1.nodes| && j < |f2.nodes|
    decreases i
  {
    var (a, b) := (f1.nodes[i].inputs, f2.nodes[j].inputs);
    && LocalMatch(f1, f2, i, j) && |a| == |b|
    && forall k :: 0 <= k < |a| ==> assert a[k] < i && b[k] < j; Match(f1, f2, a[k], b[k])
  }

  lemma MatchMeaning(f1: Flow, f2: Flow, i: nat, j: nat)
    requires f1.Valid() && f2.Valid() && i < |f1.nodes| && j < |f2.nodes|
    ensures var (a, b) := (f1.nodes[i].inputs, f2.nodes[j].inputs);
      && (forall k :: 0 <= k < |a| ==> a[k] < |f1.nodes|) && (forall k :: 0 <= k < |b| ==> b[k] < |f2.nodes|)
      && (Match(f1, f2, i, j) <==>
            LocalMatch(f1, f2, i, j) && |a| == |b| && forall k :: 0 <= k < |a| ==> Match(f1, f2, a[k], b[k]))
  {
    hide LocalMatch;
    InputsBelow(f1, i);
    InputsBelow(f2, j);
  }

  lemma InputsBelow(f: Flow, i: nat)
    requires f.Valid() && i < |f.nodes|
    ensures forall k :: 0 <= k < |f.nodes[i].inputs| ==> f.nodes[i].inputs[k] < i
  {
  }

  /** The first block whose range has the instruction. */
  ghost predicate FirstIn(blocks: seq<BasicBlock>, idx: nat, m: nat) {
    && m < |blocks| && blocks[m].start <= idx <= blocks[m].end
    && forall k :: 0 <= k < m ==> !(blocks[k].start <= idx <= blocks[k].end)
  }

  /** The instructions have one opcode and lie in the same block. */
  ghost predicate SamePlace(f1: Flow, f2: Flow, p: nat, q: nat) {
    && p < |f1.code| && q < |f2.code| && f1.code[p].opcode == f2.code[q].opcode
    && exists m: nat :: FirstIn(f1.graph.blocks, p, m) && FirstIn(f2.graph.blocks, q, m)
  }

  lemma FoundTogether(f1: Flow, f2: Flow, p: nat, q: nat)
    requires p < |f1.code| && q < |f2.code|
    ensures SamePlace(f1, f2, p, q) <==>
      && f1.code[p].opcode == f2.code[q].opcode
      && FirstHolding(f1.graph.blocks, p) == FirstHolding(f2.graph.blocks, q) != -1
  {
    FirstHoldingMeaning(f1.graph.blocks, p);
    FirstHoldingMeaning(f2.graph.blocks, q);
    if FirstHolding(f1.graph.blocks, p) == FirstHolding(f2.graph.blocks, q) != -1 {
      var m: nat := FirstHolding(f1.graph.blocks, p);
      assert FirstIn(f1.graph.blocks, p, m) && FirstIn(f2.graph.blocks, q, m);
    }
  }

  /** When two nodes match, in terms of what they are: nodes of the same kind with as many inputs, matching one by one;
      sinks, returns and results of instructions of one opcode in the same block; references to one symbol, of one type,
      with one addend; equal immediates; inputs in the same register. */
  lemma MatchInFields(f1: Flow, f2: Flow, i: nat, j: nat)
    requires f1.Valid() && f2.Valid() && i < |f1.nodes| && j < |f2.nodes|
    ensures var (m, n) := (f1.nodes[i], f2.nodes[j]);
      && (forall k :: 0 <= k < |m.inputs| ==> m.inputs[k] < |f1.nodes|)
      && (forall k :: 0 <= k < |n.inputs| ==> n.inputs[k] < |f2.nodes|)
      && (Match(f1, f2, i, j) <==>
            && |m.inputs| == |n.inputs| && (forall k :: 0 <= k < |m.inputs| ==> Match(f1, f2, m.inputs[k], n.inputs[k]))
            && match m.kind
               case SinkNode => n.kind.SinkNode? && SamePlace(f1, f2, m.index, n.index)
               case ReturnNode(_) => n.kind.ReturnNode? && SamePlace(f1, f2, m.index, n.index)
               case ResultNode(_, _) => n.kind.ResultNode? && SamePlace(f1, f2, m.index, n.index)
               case ReferenceNode(_, r) =>
                 && n.kind.ReferenceNode? && r.symbol == n.kind.reloc.symbol && r.relType == n.kind.reloc.relType
                 && r.addend == n.kind.reloc.addend
               case ImmediateNode(_, value) => n.kind.ImmediateNode? && value == n.kind.value
               case FunctionInputNode(location) => n.kind.FunctionInputNode? && location == n.kind.location
               case PhiNode(_) => n.kind.PhiNode?
               case CallReturnNode(_) => n.kind.CallReturnNode?)
  {
    hide Match, SamePlace, FirstHolding;
    MatchMeaning(f1, f2, i, j);
    var (m, n) := (f1.nodes[i], f2.nodes[j]);
    if Located(m.kind) && Located(n.kind) { FoundTogether(f1, f2, m.index, n.index); }
  }

  ghost predicate SinksMatch(f1: Flow, f2: Flow, b: nat)
    requires f1.Valid() && f2.Valid() && b < |f1.sinks| && b < |f2.sinks|
  {
    && |f1.sinks[b]| == |f2.sinks[b]|
    && forall k :: 0 <= k < |f1.sinks[b]| ==> Match(f1, f2, f1.sinks[b][k], f2.sinks[b][k])
  }

  ghost predicate FlowsMatch(f1: Flow, f2: Flow)
    requires f1.Valid() && f2.Valid()
  {
    && |f1.graph.blocks| == |f2.graph.blocks|
    && forall b :: 0 <= b < |f1.graph.blocks| ==>
         SinksMatch(f1, f2, b) && f1.graph.psTable[b].succ == f2.graph.psTable[b].succ
  }

  // ---- Label trees ----

  /** All of a node the comparison looks at. */
  datatype Label =
    | SinkLabel(opcode: int, block: int)
    | ReturnLabel(opcode: int, block: int)
    | ResultLabel(opcode: int, block: int)
    | InputLabel(location: Location)
    | ImmediateLabel(value: int)
    | ReferenceLabel(reloc: Relocation)
    | PhiLabel
    | CallReturnLabel

  datatype Tree = Tree(root: Label, children: seq<Tree>)

  ghost function LabelOf(f: Flow, i: nat): Label
    requires f.Valid() && i < |f.nodes|
  {
    var n := f.nodes[i];
    match n.kind
    case SinkNode => SinkLabel(f.code[n.index].opcode, FirstHolding(f.graph.blocks, n.index))
    case ReturnNode(_) => ReturnLabel(f.code[n.index].opcode, FirstHolding(f.graph.blocks, n.index))
    case ResultNode(_, _) => ResultLabel(f.code[n.index].opcode, FirstHolding(f.graph.blocks, n.index))
    case FunctionInputNode(location) => InputLabel(location)
    case ImmediateNode(_, value) => ImmediateLabel(value)
    case ReferenceNode(_, reloc) => ReferenceLabel(reloc)
    case PhiNode(_) => PhiLabel
    case CallReturnNode(_) => CallReturnLabel
  }

  /** The value of a node under an interpretation of the labels. */
  ghost function Value<V>(f: Flow, i: nat, interpret: (Label, seq<V>) -> V): V
    requires f.Valid() && i < |f.nodes|
    decreases i
  {
    var inputs := f.nodes[i].inputs;
    interpret(LabelOf(f, i), seq(|inputs|, k requires 0 <= k < |inputs| =>
      assert inputs[k] < i; Value(f, inputs[k], interpret)))
  }

  /** The interpretation that keeps everything. */
  ghost function Unfold(f: Flow, i: nat): (t: Tree)
    requires f.Valid() && i < |f.nodes|
    ensures t.root == LabelOf(f, i) && |t.children| == |f.nodes[i].inputs|
    decreases i
  {
    var inputs := f.nodes[i].inputs;
    Tree(LabelOf(f, i), seq(|inputs|, k requires 0 <= k < |inputs| => assert inputs[k] < i; Unfold(f, inputs[k])))
  }

  predicate LabelFound(l: Label) {
    l.SinkLabel? || l.ReturnLabel? || l.ResultLabel? ==> l.block != -1
  }

  /** Every instruction in the tree was found in some block. */
  predicate Found(t: Tree) {
    LabelFound(t.root) && forall k :: 0 <= k < |t.children| ==> Found(t.children[k])
  }

  lemma LocalMatchIsLabel(f1: Flow, f2: Flow, i: nat, j: nat)
    requires f1.Valid() && f2.Valid() && i < |f1.nodes| && j < |f2.nodes|
    ensures LocalMatch(f1, f2, i, j) <==> LabelOf(f1, i) == LabelOf(f2, j) && LabelFound(LabelOf(f1, i))
  {
  }

  /** Two nodes match exactly when their label trees are equal and every instruction in them lies in a block. */
  lemma {:induction false} MatchIffTreesEqual(f1: Flow, f2: Flow, i: nat, j: nat)
    requires f1.Valid() && f2.Valid() && i < |f1.nodes| && j < |f2.nodes|
    ensures Match(f1, f2, i, j) <==> Unfold(f1, i) == Unfold(f2, j) && Found(Unfold(f1, i))
    decreases i
  {
    hide LocalMatch, LabelOf, LabelFound;
    LocalMatchIsLabel(f1, f2, i, j);
    var (a, b) := (f1.nodes[i].inputs, f2.nodes[j].inputs);
    var (s, t) := (Unfold(f1, i), Unfold(f2, j));
    if |a| == |b| {
      forall k | 0 <= k < |a|
        ensures Match(f1, f2, a[k], b[k]) <==> s.children[k] == t.children[k] && Found(s.children[k])
      {
        MatchIffTreesEqual(f1, f2, a[k], b[k]);
      }
      assert s.children == t.children <==> forall k :: 0 <= k < |a| ==> s.children[k] == t.children[k];
    }
  }

  ghost predicate TreesMatch(f1: Flow, f2: Flow, b: nat)
    requires f1.Valid() && f2.Valid() && b < |f1.sinks| && b < |f2.sinks|
  {
    && |f1.sinks[b]| == |f2.sinks[b]|
    && forall k :: 0 <= k < |f1.sinks[b]| ==>
         Unfold(f1, f1.sinks[b][k]) == Unfold(f2, f2.sinks[b][k]) && Found(Unfold(f1, f1.sinks[b][k]))
  }

  /** What a positive comparison of two functions means: as many blocks, equal successor rows, and block by block
      equal lists of sinks, read as trees. */
  lemma FlowsMatchIffTrees(f1: Flow, f2: Flow)
    requires f1.Valid() && f2.Valid()
    ensures FlowsMatch(f1, f2) <==>
      && |f1.graph.blocks| == |f2.graph.blocks|
      && forall b :: 0 <= b < |f1.graph.blocks| ==>
           TreesMatch(f1, f2, b) && f1.graph.psTable[b].succ == f2.graph.psTable[b].succ
  {
    hide Match, Unfold, Found;
    if |f1.graph.blocks| == |f2.graph.blocks| {
      forall b | 0 <= b < |f1.graph.blocks|
        ensures SinksMatch(f1, f2, b) <==> TreesMatch(f1, f2, b)
      {
        if |f1.sinks[b]| == |f2.sinks[b]| {
          forall k | 0 <= k < |f1.sinks[b]|
            ensures Match(f1, f2, f1.sinks[b][k], f2.sinks[b][k]) <==>
              Unfold(f1, f1.sinks[b][k]) == Unfold(f2, f2.sinks[b][k]) && Found(Unfold(f1, f1.sinks[b][k]))
          {
            MatchIffTreesEqual(f1, f2, f1.sinks[b][k], f2.sinks[b][k]);
          }
        }
      }
    }
  }

  /** Input `k` of the second list matches input `place[k]` of the first. */
  ghost predicate Placed(f1: Flow, f2: Flow, a: seq<nat>, b: seq<nat>, place: seq<nat>, k: nat)
    requires f1.Valid() && f2.Valid()
  {
    && k < |place| && k < |b| && place[k] < |a| && a[place[k]] < |f1.nodes| && b[k] < |f2.nodes|
    && Match(f1, f2, a[place[k]], b[k])
  }

  /** Then the two at place `k` match exactly if the first list has equal trees at both places. */
  ghost predicate SameTrees(f: Flow, a: seq<nat>, place: seq<nat>, k: nat)
    requires f.Valid()
  {
    && k < |a| && k < |place| && place[k] < |a| && a[k] < |f.nodes| && a[place[k]] < |f.nodes|
    && Unfold(f, a[k]) == Unfold(f, a[place[k]])
  }

  /** Phi inputs are compared in the order they happen to have: if the inputs of two phi nodes match, but each with
      one at another place, the phi nodes match exactly if the trees at the exchanged places are equal. */
  lemma PhiOrderMatters(f1: Flow, f2: Flow, i: nat, j: nat, place: seq<nat>)
    requires f1.Valid() && f2.Valid() && i < |f1.nodes| && j < |f2.nodes|
    requires f1.nodes[i].kind.PhiNode? && f2.nodes[j].kind.PhiNode?
    requires |f1.nodes[i].inputs| == |f2.nodes[j].inputs|
    requires forall k :: 0 <= k < |f1.nodes[i].inputs| ==>
      Placed(f1, f2, f1.nodes[i].inputs, f2.nodes[j].inputs, place, k)
    ensures Match(f1, f2, i, j) <==>
      forall k :: 0 <= k < |f1.nodes[i].inputs| ==> SameTrees(f1, f1.nodes[i].inputs, place, k)
  {
    hide Match, Placed, SameTrees, Flow.Valid;
    PhiMatch(f1, f2, i, j);
    var (a, b) := (f1.nodes[i].inputs, f2.nodes[j].inputs);
    forall k | 0 <= k < |a|
      ensures Match(f1, f2, a[k], b[k]) <==> SameTrees(f1, a, place, k)
    {
      ExchangedMatch(f1, f2, a, b, place, k);
    }
  }

  lemma ExchangedMatch(f1: Flow, f2: Flow, a: seq<nat>, b: seq<nat>, place: seq<nat>, k: nat)
    requires f1.Valid() && f2.Valid() && k < |a| == |b| && a[k] < |f1.nodes| && b[k] < |f2.nodes|
    requires Placed(f1, f2, a, b, place, k)
    ensures Match(f1, f2, a[k], b[k]) <==> SameTrees(f1, a, place, k)
  {
    hide Match, Unfold, Found, Flow.Valid;
    MatchIffTreesEqual(f1, f2, a[place[k]], b[k]);
    MatchIffTreesEqual(f1, f2, a[k], b[k]);
  }

  lemma PhiMatch(f1: Flow, f2: Flow, i: nat, j: nat)
    requires f1.Valid() && f2.Valid() && i < |f1.nodes| && j < |f2.nodes|
    requires f1.nodes[i].kind.PhiNode? && f2.nodes[j].kind.PhiNode?
    requires |f1.nodes[i].inputs| == |f2.nodes[j].inputs|
    ensures var (a, b) := (f1.nodes[i].inputs, f2.nodes[j].inputs);
      && (forall k :: 0 <= k < |a| ==> a[k] < |f1.nodes| && b[k] < |f2.nodes|)
      && (Match(f1, f2, i, j) <==> forall k :: 0 <= k < |a| ==> Match(f1, f2, a[k], b[k]))
  {
    hide Match;
    MatchMeaning(f1, f2, i, j);
    assert LocalMatch(f1, f2, i, j);
  }

  // ---- Interpretations ----

  ghost function TreeValue<V>(t: Tree, interpret: (Label, seq<V>) -> V): V {
    interpret(t.root, seq(|t.children|, k requires 0 <= k < |t.children| => TreeValue(t.children[k], interpret)))
  }

  lemma {:induction false} ValueOfTree<V>(f: Flow, i: nat, interpret: (Label, seq<V>) -> V)
    requires f.Valid() && i < |f.nodes|
    ensures Value(f, i, interpret) == TreeValue(Unfold(f, i), interpret)
    decreases i
  {
    hide LabelOf;
    var inputs := f.nodes[i].inputs;
    var t := Unfold(f, i);
    forall k | 0 <= k < |inputs|
      ensures Value(f, inputs[k], interpret) == TreeValue(t.children[k], interpret)
    {
      ValueOfTree(f, inputs[k], interpret);
    }
    assert seq(|inputs|, k requires 0 <= k < |inputs| => assert inputs[k] < i; Value(f, inputs[k], interpret))
        == seq(|t.children|, k requires 0 <= k < |t.children| => TreeValue(t.children[k], interpret));
  }

  /** Matching nodes have the same value, whatever the instructions, inputs and references stand for. */
  lemma MatchingValuesAgree<V>(f1: Flow, f2: Flow, i: nat, j: nat, interpret: (Label, seq<V>) -> V)
    requires f1.Valid() && f2.Valid() && i < |f1.nodes| && j < |f2.nodes| && Match(f1, f2, i, j)
    ensures Value(f1, i, interpret) == Value(f2, j, interpret)
  {
    MatchIffTreesEqual(f1, f2, i, j);
    ValueOfTree(f1, i, interpret);
    ValueOfTree(f2, j, interpret);
  }

  lemma {:induction false} KeepingValueIsTree(f: Flow, i: nat)
    requires f.Valid() && i < |f.nodes|
    ensures Value(f, i, (l, c) => Tree(l, c)) == Unfold(f, i)
    decreases i
  {
    hide LabelOf;
    var inputs := f.nodes[i].inputs;
    forall k | 0 <= k < |inputs|
      ensures Value(f, inputs[k], (l, c) => Tree(l, c)) == Unfold(f, inputs[k])
    {
      KeepingValueIsTree(f, inputs[k]);
    }
    assert seq(|inputs|, k requires 0 <= k < |inputs| =>
                 assert inputs[k] < i; Value(f, inputs[k], (l, c) => Tree(l, c)))
        == seq(|inputs|, k requires 0 <= k < |inputs| => assert inputs[k] < i; Unfold(f, inputs[k]));
  }

  /** Conversely, nodes whose values agree under every interpretation match. */
  lemma AgreeingNodesMatch(f1: Flow, f2: Flow, i: nat, j: nat)
    requires f1.Valid() && f2.Valid() && i < |f1.nodes| && j < |f2.nodes| && Found(Unfold(f1, i))
    requires forall interpret: (Label, seq<Tree>) -> Tree :: Value(f1, i, interpret) == Value(f2, j, interpret)
    ensures Match(f1, f2, i, j)
  {
    KeepingValueIsTree(f1, i);
    KeepingValueIsTree(f2, j);
    MatchIffTreesEqual(f1, f2, i, j);
  }

  // ---- Executions ----

  /** A path over blocks from the entry. */
  ghost predicate Route(g: Graph, w: seq<nat>) {
    && 0 < |w| && w[0] == 0 < |g.blocks|
    && forall i :: 0 <= i < |w| - 1 ==> RouteStep(g, w[i], w[i + 1])
  }

  ghost predicate RouteStep(g: Graph, i: nat, j: nat) {
    i < |g.blocks| && j < |g.blocks| && g.HasEdge(i, j)
  }

  ghost function SinkValues<V>(f: Flow, b: nat, interpret: (Label, seq<V>) -> V): seq<V>
    requires f.Valid() && b < |f.sinks|
  {
    seq(|f.sinks[b]|, k requires 0 <= k < |f.sinks[b]| => Value(f, f.sinks[b][k], interpret))
  }

  /** The values of the sinks along a route, in order. */
  ghost function Observed<V>(f: Flow, w: seq<nat>, interpret: (Label, seq<V>) -> V): seq<V>
    requires f.Valid() && forall i :: 0 <= i < |w| ==> w[i] < |f.graph.blocks|
  {
    if w == [] then []
    else Observed(f, w[..|w| - 1], interpret) + SinkValues(f, w[|w| - 1], interpret)
  }

  /** Functions with equal flows have the same routes, and whatever the labels stand for, their stores, branches and
      returns have the same values along each. */
  lemma MatchingFlowsObservedAlike<V>(f1: Flow, f2: Flow, w: seq<nat>, interpret: (Label, seq<V>) -> V)
    requires f1.Valid() && f2.Valid() && FlowsMatch(f1, f2)
    ensures Route(f1.graph, w) <==> Route(f2.graph, w)
    ensures (forall i :: 0 <= i < |w| ==> w[i] < |f1.graph.blocks|) ==>
      Observed(f1, w, interpret) == Observed(f2, w, interpret)
  {
    hide SinksMatch, Value, RouteStep;
    forall i: nat, j: nat
      ensures RouteStep(f1.graph, i, j) <==> RouteStep(f2.graph, i, j)
    {
      SameSteps(f1, f2, i, j);
    }
    if forall i :: 0 <= i < |w| ==> w[i] < |f1.graph.blocks| { ObservedAlike(f1, f2, w, interpret); }
  }

  lemma SameSteps(f1: Flow, f2: Flow, i: nat, j: nat)
    requires f1.Valid() && f2.Valid() && FlowsMatch(f1, f2)
    ensures RouteStep(f1.graph, i, j) <==> RouteStep(f2.graph, i, j)
  {
    hide SinksMatch;
    if i < |f1.graph.blocks| { assert f1.graph.psTable[i].succ == f2.graph.psTable[i].succ; }
  }

  lemma {:induction false} ObservedAlike<V>(f1: Flow, f2: Flow, w: seq<nat>, interpret: (Label, seq<V>) -> V)
    requires f1.Valid() && f2.Valid() && FlowsMatch(f1, f2)
    requires forall i :: 0 <= i < |w| ==> w[i] < |f1.graph.blocks|
    ensures Observed(f1, w, interpret) == Observed(f2, w, interpret)
    decreases |w|
  {
    hide Value, Match;
    if w != [] {
      ObservedAlike(f1, f2, w[..|w| - 1], interpret);
      var b := w[|w| - 1];
      assert SinksMatch(f1, f2, b);
      forall k | 0 <= k < |f1.sinks[b]|
        ensures Value(f1, f1.sinks[b][k], interpret) == Value(f2, f2.sinks[b][k], interpret)
      {
        MatchingValuesAgree(f1, f2, f1.sinks[b][k], f2.sinks[b][k], interpret);
      }
      assert SinkValues(f1, b, interpret) == SinkValues(f2, b, interpret);
    }
  }

  // ---- An equivalence ----

  /** Every instruction a result or a sink stands for lies in some block. */
  ghost predicate AllFound(f: Flow)
    requires f.Valid()
  {
    forall i :: 0 <= i < |f.nodes| && Located(f.nodes[i].kind) ==> FirstHolding(f.graph.blocks, f.nodes[i].index) != -1
  }

  lemma {:induction false} FoundUnfolds(f: Flow, i: nat)
    requires f.Valid() && AllFound(f) && i < |f.nodes|
    ensures Found(Unfold(f, i))
    decreases i
  {
    var inputs := f.nodes[i].inputs;
    forall k | 0 <= k < |inputs|
      ensures Found(Unfold(f, i).children[k])
    {
      FoundUnfolds(f, inputs[k]);
    }
  }

  lemma FlowsMatchReflexive(f: Flow)
    requires f.Valid() && AllFound(f)
    ensures FlowsMatch(f, f)
  {
    hide Match;
    forall b, k | 0 <= b < |f.sinks| && 0 <= k < |f.sinks[b]|
      ensures Match(f, f, f.sinks[b][k], f.sinks[b][k])
    {
      FoundUnfolds(f, f.sinks[b][k]);
      MatchIffTreesEqual(f, f, f.sinks[b][k], f.sinks[b][k]);
    }
  }

  lemma FlowsMatchSymmetric(f1: Flow, f2: Flow)
    requires f1.Valid() && f2.Valid() && FlowsMatch(f1, f2)
    ensures FlowsMatch(f2, f1)
  {
    hide Match;
    forall b, k | 0 <= b < |f1.sinks| && 0 <= k < |f1.sinks[b]|
      ensures |f1.sinks[b]| == |f2.sinks[b]| && Match(f2, f1, f2.sinks[b][k], f1.sinks[b][k])
    {
      assert SinksMatch(f1, f2, b);
      MatchIffTreesEqual(f1, f2, f1.sinks[b][k], f2.sinks[b][k]);
      MatchIffTreesEqual(f2, f1, f2.sinks[b][k], f1.sinks[b][k]);
    }
    forall b | 0 <= b < |f1.sinks|
      ensures SinksMatch(f2, f1, b)
    {
      assert SinksMatch(f1, f2, b);
    }
  }

  lemma FlowsMatchTransitive(f1: Flow, f2: Flow, f3: Flow)
    requires f1.Valid() && f2.Valid() && f3.Valid() && FlowsMatch(f1, f2) && FlowsMatch(f2, f3)
    ensures FlowsMatch(f1, f3)
  {
    hide Match;
    forall b | 0 <= b < |f1.sinks|
      ensures SinksMatch(f1, f3, b)
    {
      assert SinksMatch(f1, f2, b) && SinksMatch(f2, f3, b);
      forall k | 0 <= k < |f1.sinks[b]|
        ensures Match(f1, f3, f1.sinks[b][k], f3.sinks[b][k])
      {
        MatchIffTreesEqual(f1, f2, f1.sinks[b][k], f2.sinks[b][k]);
        MatchIffTreesEqual(f2, f3, f2.sinks[b][k], f3.sinks[b][k]);
        MatchIffTreesEqual(f1, f3, f1.sinks[b][k], f3.sinks[b][k]);
      }
    }
  }

  /** Functions with equal flows also have the same predecessors, each as often, though only successors are
      compared. */
  lemma MatchingFlowsSamePredecessors(f1: Flow, f2: Flow, b: nat)
    requires f1.Valid() && f2.Valid() && f1.graph.Valid() && f2.graph.Valid() && FlowsMatch(f1, f2)
    requires b < |f1.graph.blocks|
    ensures multiset(f1.graph.psTable[b].pred) == multiset(f2.graph.psTable[b].pred)
  {
    hide SinksMatch;
    forall i: nat
      ensures multiset(f1.graph.psTable[b].pred)[i] == multiset(f2.graph.psTable[b].pred)[i]
    {
      if i < |f1.graph.blocks| {
        assert f1.graph.SuccCount(i, b) == f1.graph.PredCount(i, b);
        assert f2.graph.SuccCount(i, b) == f2.graph.PredCount(i, b);
        assert f1.graph.psTable[i].succ == f2.graph.psTable[i].succ;
      } else {
        assert i !in f1.graph.psTable[b].pred && i !in f2.graph.psTable[b].pred;
      }
    }
  }
}
