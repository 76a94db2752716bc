/** Invariants of the data-flow pass and the lemmas that keep them. */
module DataFlowInvariants {
  import opened Wrappers
  import opened Instructions
  import opened MachineCode
  import opened ControlFlowGraphs
  import opened FlowContexts
  import opened ReachingDefinitions
  import opened ChaoticIteration
  import opened DataFlowNodes

  // ---- The effect of one instruction ----

  /** The context after defining the listed registers at one instruction. */
  ghost function Defined(ctx: Context<Site>, b: nat, pc: nat, locs: seq<Location>, fromCall: bool): Context<Site> {
    map c | c in ctx :: if Names(locs, c) then {Site(b, pc, c, fromCall)} else ctx[c]
  }

  ghost function Killed(ctx: Context<Site>, locs: seq<Location>): Context<Site> {
    map c | c in ctx :: if Names(locs, c) then {} else ctx[c]
  }

  lemma NamesOneMore(locs: seq<Location>, i: nat, c: Cell)
    requires i < |locs|
    ensures Names(locs[..i + 1], c) <==> Names(locs[..i], c) || CellOf(locs[i]) == Some(c)
  {
    hide AllCells, CellOf;
    var more := locs[..i + 1];
    if Names(locs[..i], c) {
      var k :| 0 <= k < |locs[..i]| && CellOf(locs[..i][k]) == Some(c);
      assert CellOf(more[k]) == Some(c);
    }
    if CellOf(locs[i]) == Some(c) { assert CellOf(more[i]) == Some(c); }
    if Names(more, c) {
      var k :| 0 <= k < |more| && CellOf(more[k]) == Some(c);
      if k < i { assert CellOf(locs[..i][k]) == Some(c); }
    }
  }

  lemma DefinedOneMore(ctx: Context<Site>, b: nat, pc: nat, locs: seq<Location>, i: nat, fromCall: bool)
    requires i < |locs| && Known(locs[i]) && CellOf(locs[i]).value in ctx
    ensures var c := CellOf(locs[i]).value;
      Defined(ctx, b, pc, locs[..i + 1], fromCall)
      == Defined(ctx, b, pc, locs[..i], fromCall)[c := {Site(b, pc, c, fromCall)}]
  {
    hide AllCells, CellOf, Names;
    forall c | c in ctx { NamesOneMore(locs, i, c); }
  }

  lemma KilledOneMore(ctx: Context<Site>, locs: seq<Location>, i: nat)
    requires i < |locs| && Known(locs[i]) && CellOf(locs[i]).value in ctx
    ensures Killed(ctx, locs[..i + 1]) == Killed(ctx, locs[..i])[CellOf(locs[i]).value := {}]
  {
    hide AllCells, CellOf, Names;
    forall c | c in ctx { NamesOneMore(locs, i, c); }
  }

  /** Putting one definition into a cell. */
  lemma SiteContextUpdate(nodes: seq<Node>, ctx: Context<nat>, c: Cell, ids: set<nat>)
    requires DefinitionsOnly(nodes, ctx) && c in AllCells() && Definitions(nodes, ids) && InCell(nodes, ids, c)
    ensures DefinitionsOnly(nodes, ctx[c := ids])
    ensures SiteContext(nodes, ctx[c := ids]) == SiteContext(nodes, ctx)[c := Sites(nodes, ids)]
  {
    hide AllCells, Definitions, InCell;
  }

  lemma SingleSite(nodes: seq<Node>, id: nat)
    requires id < |nodes| && IsDefinition(nodes[id])
    ensures Sites(nodes, {id}) == {SiteOf(nodes[id])} && Definitions(nodes, {id})
    ensures InCell(nodes, {id}, CellOf(nodes[id].kind.location).value)
  {
    hide AllCells, CellOf;
  }

  lemma NoSites(nodes: seq<Node>, ids: set<nat>)
    requires Definitions(nodes, ids)
    ensures Sites(nodes, ids) == {} <==> ids == {}
  {
    hide AllCells, IsDefinition;
    if id :| id in ids { assert SiteOf(nodes[id]) in Sites(nodes, ids); }
  }

  /** The three assignments of an instruction amount to its effect. */
  lemma EffectComposed(f: Problem, b: nat, pc: nat, ctx: Context<Site>, c: Cell)
    requires b < |f.graph.blocks| && pc < |f.code| && c in ctx
    ensures var d := Defined(ctx, b, pc, f.code[pc].outputs, false);
      Apply(EffectOf(f, b, pc, c), ctx[c])
      == if IsCall(f, b, pc) then Defined(Killed(d, f.killedByCall), b, pc, f.definedByCall, true)[c] else d[c]
  {
    hide Names, IsCall;
  }

  predicate KnownRegisters(insn: Insn) { AllKnown(insn.inputs) && AllKnown(insn.outputs) }

  ghost function After(f: Problem, b: nat, pc: nat, at: Context<Site>): Context<Site>
    requires b < |f.graph.blocks| && pc < |f.code|
  {
    map c | c in at :: Apply(EffectOf(f, b, pc, c), at[c])
  }

  ghost function SinkAt(f: Problem, pc: nat, at: Context<Site>): seq<Shape>
    requires pc < |f.code|
  {
    if MakesSink(f.code[pc]) then [SinkShape(pc, ExpectedOperands(f.code[pc], at))] else []
  }

  lemma AfterComposed(f: Problem, b: nat, pc: nat, at: Context<Site>)
    requires b < |f.graph.blocks| && pc < |f.code|
    ensures var d := Defined(at, b, pc, f.code[pc].outputs, false);
      After(f, b, pc, at)
      == if IsCall(f, b, pc) then Defined(Killed(d, f.killedByCall), b, pc, f.definedByCall, true) else d
  {
    hide Names, IsCall, EffectOf;
    forall c | c in at { EffectComposed(f, b, pc, at, c); }
    var d := Defined(at, b, pc, f.code[pc].outputs, false);
    assert d.Keys == at.Keys;
    assert Defined(Killed(d, f.killedByCall), b, pc, f.definedByCall, true).Keys == at.Keys;
  }

  ghost predicate SameSite(nodes: seq<Node>, x: nat, y: nat) {
    x < |nodes| && y < |nodes| && IsDefinition(nodes[x]) && IsDefinition(nodes[y])
    && SiteOf(nodes[x]) == SiteOf(nodes[y])
  }

  /** No cell holds two nodes of one site. */
  ghost predicate OneNodePerSite(nodes: seq<Node>, ctx: Context<nat>) {
    forall c, x, y :: c in ctx && x in ctx[c] && y in ctx[c] && SameSite(nodes, x, y) ==> x == y
  }

  /** Then counting nodes and counting sites are the same. */
  lemma CountsAgree(nodes: seq<Node>, ctx: Context<nat>)
    requires DefinitionsOnly(nodes, ctx) && OneNodePerSite(nodes, ctx)
    ensures Sizes(ctx) == Sizes(SiteContext(nodes, ctx))
  {
    hide AllCells, InCell, Sites, IsDefinition;
    forall c | c in AllCells()
      ensures |ctx[c]| == |Sites(nodes, ctx[c])|
    {
      assert Definitions(nodes, ctx[c]);
      AsManySites(nodes, ctx[c]);
    }
  }

  lemma {:induction false} AsManySites(nodes: seq<Node>, ids: set<nat>)
    requires Definitions(nodes, ids)
    requires forall x, y :: x in ids && y in ids && SameSite(nodes, x, y) ==> x == y
    ensures |Sites(nodes, ids)| == |ids|
    decreases |ids|
  {
    hide IsDefinition;
    if ids != {} {
      var x :| x in ids;
      var rest := ids - {x};
      AsManySites(nodes, rest);
      assert Sites(nodes, ids) == Sites(nodes, rest) + {SiteOf(nodes[x])};
      assert forall y :: y in rest ==> !SameSite(nodes, x, y);
      assert SiteOf(nodes[x]) !in Sites(nodes, rest);
    }
  }

  // ---- Which definitions a visit replaces ----

  ghost function Held(ctx: Context<nat>, c: Cell): set<nat> {
    if c in ctx then ctx[c] else {}
  }

  /** At most one node, and made since `from`. */
  ghost predicate New(ids: set<nat>, from: nat) {
    |ids| <= 1 && forall id :: id in ids ==> from <= id
  }

  /** The cells the list names hold at most one node, made since `from`; the others are as before. */
  ghost predicate Replaced(ctx: Context<nat>, ctx': Context<nat>, locs: seq<Location>, from: nat) {
    forall c :: if Names(locs, c) then New(Held(ctx', c), from) else Held(ctx', c) == Held(ctx, c)
  }

  /** The same for the cells an instruction does anything to. */
  ghost predicate Refreshed(f: Problem, b: nat, pc: nat, ctx: Context<nat>, ctx': Context<nat>, from: nat)
    requires b < |f.graph.blocks| && pc < |f.code|
  {
    forall c :: if EffectOf(f, b, pc, c) == Pass then Held(ctx', c) == Held(ctx, c) else New(Held(ctx', c), from)
  }

  lemma ReplacedOneMore(ctx: Context<nat>, mid: Context<nat>, locs: seq<Location>, i: nat, from: nat, ids: set<nat>)
    requires i < |locs| && Known(locs[i]) && Replaced(ctx, mid, locs[..i], from)
    requires New(ids, from)
    ensures Replaced(ctx, mid[CellOf(locs[i]).value := ids], locs[..i + 1], from)
  {
    hide AllCells, CellOf, Names;
    var ctx' := mid[CellOf(locs[i]).value := ids];
    forall c
      ensures if Names(locs[..i + 1], c) then New(Held(ctx', c), from) else Held(ctx', c) == Held(ctx, c)
    {
      NamesOneMore(locs, i, c);
      assert c != CellOf(locs[i]).value ==> Held(ctx', c) == Held(mid, c);
    }
  }

  lemma ReplacedEarlier(ctx: Context<nat>, ctx': Context<nat>, locs: seq<Location>, from: nat, earlier: nat)
    requires Replaced(ctx, ctx', locs, from) && earlier <= from
    ensures Replaced(ctx, ctx', locs, earlier)
  {
    hide Names, Held;
  }

  lemma ReplacedNone(ctx: Context<nat>, from: nat)
    ensures Replaced(ctx, ctx, [], from)
  {
  }

  lemma RefreshedPlain(f: Problem, b: nat, pc: nat, ctx: Context<nat>, ctx': Context<nat>, from: nat)
    requires b < |f.graph.blocks| && pc < |f.code| && !IsCall(f, b, pc)
    requires Replaced(ctx, ctx', f.code[pc].outputs, from)
    ensures Refreshed(f, b, pc, ctx, ctx', from)
  {
    hide Names, IsCall;
  }

  lemma RefreshedCall(f: Problem, b: nat, pc: nat, ctx: Context<nat>, ctx1: Context<nat>, ctx2: Context<nat>,
                      ctx3: Context<nat>, from: nat, from': nat)
    requires b < |f.graph.blocks| && pc < |f.code| && IsCall(f, b, pc) && from <= from'
    requires Replaced(ctx, ctx1, f.code[pc].outputs, from) && Replaced(ctx1, ctx2, f.killedByCall, from)
    requires Replaced(ctx2, ctx3, f.definedByCall, from')
    ensures Refreshed(f, b, pc, ctx, ctx3, from)
  {
    hide Names, IsCall;
  }

  /** Definitions that the block itself made for instructions before `pc` are from this visit. */
  ghost predicate Own(nodes: seq<Node>, ctx: Context<nat>, from: nat, b: nat, pc: nat) {
    forall c, id :: id in Held(ctx, c) && id < |nodes| && nodes[id].block == b && nodes[id].index < pc ==> from <= id
  }

  /** An instruction that defines a cell replaces what an earlier visit defined there. */
  lemma MadeHereNotPassed(f: Problem, nodes: seq<Node>, ctx: Context<nat>, c: Cell, id: nat)
    requires AllWellMade(f, nodes) && DefinitionsOnly(nodes, ctx) && id in Held(ctx, c)
    ensures id < |nodes| && nodes[id].block < |f.graph.blocks| && nodes[id].index < |f.code|
    ensures Holds(f.graph.blocks[nodes[id].block], nodes[id].index) && CarriesOperands(nodes[id])
    ensures EffectOf(f, nodes[id].block, nodes[id].index, c) != Pass
  {
    hide AllCells, CellOf, IsCall;
    assert Definitions(nodes, ctx[c]) && InCell(nodes, ctx[c], c);
    assert WellMade(f, nodes, id);
    var n := nodes[id];
    if n.kind.CallReturnNode? {
      var i :| 0 <= i < |f.definedByCall| && f.definedByCall[i] == n.kind.location;
      assert Names(f.definedByCall, c);
    } else {
      assert f.code[n.index].outputs[n.kind.opindex] == n.kind.location;
      assert Names(f.code[n.index].outputs, c);
    }
  }

  lemma OwnStep(f: Problem, nodes: seq<Node>, nodes': seq<Node>, ctx: Context<nat>, ctx': Context<nat>,
                from: nat, b: nat, pc: nat)
    requires b < |f.graph.blocks| && pc < |f.code| && from <= |nodes| && nodes <= nodes'
    requires AllWellMade(f, nodes) && DefinitionsOnly(nodes, ctx)
    requires Own(nodes, ctx, from, b, pc) && Refreshed(f, b, pc, ctx, ctx', |nodes|)
    ensures Own(nodes', ctx', from, b, pc + 1)
  {
    hide AllCells, AllWellMade, DefinitionsOnly, EffectOf, Held;
    forall c, id | id in Held(ctx', c) && id < |nodes'| && nodes'[id].block == b && nodes'[id].index <= pc
      ensures from <= id
    {
      if EffectOf(f, b, pc, c) == Pass {
        MadeHereNotPassed(f, nodes, ctx, c, id);
      }
    }
  }

  /** What a visit that has come to `pc` has made of the nodes it started with: a cell that nothing defined or killed
      holds the same, any other at most one node, made since `from`. */
  ghost predicate Renewed(f: Problem, b: nat, pc: nat, entry: Context<nat>, ctx: Context<nat>, from: nat)
    requires b < |f.graph.blocks| && pc <= |f.code|
  {
    forall c :: if Clear(f, b, f.Start(b), pc, c) then Held(ctx, c) == Held(entry, c) else New(Held(ctx, c), from)
  }

  lemma RenewedStep(f: Problem, b: nat, pc: nat, entry: Context<nat>, ctx: Context<nat>, ctx': Context<nat>,
                    from: nat, from': nat)
    requires b < |f.graph.blocks| && f.Start(b) <= pc < |f.code| && from <= from'
    requires Renewed(f, b, pc, entry, ctx, from) && Refreshed(f, b, pc, ctx, ctx', from')
    ensures Renewed(f, b, pc + 1, entry, ctx', from)
  {
    hide EffectOf, Held, Clear;
    forall c
      ensures if Clear(f, b, f.Start(b), pc + 1, c) then Held(ctx', c) == Held(entry, c) else New(Held(ctx', c), from)
    {
      ClearOneMore(f, b, f.Start(b), pc + 1, c);
    }
  }

  lemma RenewedAtStart(f: Problem, b: nat, entry: Context<nat>, from: nat)
    requires b < |f.graph.blocks| && f.Start(b) <= |f.code|
    ensures Renewed(f, b, f.Start(b), entry, entry, from)
  {
    hide EffectOf;
  }

  lemma OwnAtStart(f: Problem, nodes: seq<Node>, ctx: Context<nat>, b: nat)
    requires b < |f.graph.blocks| && AllWellMade(f, nodes) && DefinitionsOnly(nodes, ctx)
    ensures Own(nodes, ctx, |nodes|, b, f.Start(b))
  {
    hide AllCells, AllWellMade, DefinitionsOnly, EffectOf, Held;
    forall c, id | id in Held(ctx, c) && id < |nodes| && nodes[id].block == b
      ensures f.Start(b) <= nodes[id].index
    {
      MadeHereNotPassed(f, nodes, ctx, c, id);
    }
  }

  /** The definitions a block makes itself carry the operands that `entry` gives their instructions. */
  ghost predicate UpToDate(f: Problem, nodes: seq<Node>, ctx: Context<nat>, b: nat, entry: Context<Site>)
    requires AllWellMade(f, nodes) && b < |f.graph.blocks|
  {
    forall c, id :: id in Held(ctx, c) && id < |nodes| && nodes[id].block == b ==>
      && nodes[id].index < |f.code|
      && (assert WellMade(f, nodes, id); OperandsOf(nodes, nodes[id].inputs))
         == ExpectedOperands(f.code[nodes[id].index], Before(f, b, nodes[id].index, entry))
  }

  lemma OwnUpToDate(f: Problem, nodes: seq<Node>, ctx: Context<nat>, from: nat, b: nat, entry: Context<Site>)
    requires f.Valid() && f.graph.Internal(b) && AllWellMade(f, nodes) && DefinitionsOnly(nodes, ctx)
    requires Own(nodes, ctx, from, b, f.Stop(b)) && MadeIn(f, nodes, from, b, f.Stop(b), entry)
    ensures UpToDate(f, nodes, ctx, b, entry)
  {
    hide AllCells, WellMade, DefinitionsOnly, EffectOf, OperandsOf, ExpectedOperands, Before, Graph.Valid;
    forall c, id | id in Held(ctx, c) && id < |nodes| && nodes[id].block == b
      ensures from <= id && CarriesOperands(nodes[id]) && nodes[id].index < |f.code|
    {
      MadeHereNotPassed(f, nodes, ctx, c, id);
    }
  }

  lemma UpToDateStable(f: Problem, nodes: seq<Node>, nodes': seq<Node>, ctx: Context<nat>, b: nat,
                       entry: Context<Site>)
    requires AllWellMade(f, nodes) && AllWellMade(f, nodes') && nodes <= nodes' && b < |f.graph.blocks|
    requires DefinitionsOnly(nodes, ctx) && UpToDate(f, nodes, ctx, b, entry)
    ensures UpToDate(f, nodes', ctx, b, entry)
  {
    hide AllCells, Rightful, DefinitionsOnly, EffectOf, OperandsOf, ExpectedOperands, Before;
    forall c, id | id in Held(ctx, c) && id < |nodes'| && nodes'[id].block == b
      ensures id < |nodes| && WellMade(f, nodes, id)
      ensures OperandsOf(nodes', nodes[id].inputs) == OperandsOf(nodes, nodes[id].inputs)
    {
      MadeHereNotPassed(f, nodes, ctx, c, id);
      assert WellMade(f, nodes, id);
      OperandsStable(f, nodes, nodes', nodes[id].inputs);
    }
  }

  ghost predicate AllDefinitions(nodes: seq<Node>, contexts: seq<Context<nat>>) {
    forall k :: 0 <= k < |contexts| ==> DefinitionsOnly(nodes, contexts[k])
  }

  /** The outputs of the blocks, in terms of sites. */
  ghost function SiteOuts(nodes: seq<Node>, contexts: seq<Context<nat>>): (out: Outs)
    ensures |out| == |contexts|
  {
    seq(|contexts|, k requires 0 <= k < |contexts| => SiteContext(nodes, contexts[k]))
  }

  lemma DefinitionsAt(nodes: seq<Node>, contexts: seq<Context<nat>>, k: nat)
    requires AllDefinitions(nodes, contexts) && k < |contexts|
    ensures DefinitionsOnly(nodes, contexts[k])
  {
  }

  lemma OutsShaped(f: Problem, nodes: seq<Node>, contexts: seq<Context<nat>>)
    requires AllDefinitions(nodes, contexts) && |contexts| == |f.graph.blocks|
    ensures Shaped(f, SiteOuts(nodes, contexts))
  {
    hide AllCells, Definitions, InCell, Sites;
    forall k | 0 <= k < |contexts|
      ensures Total(SiteOuts(nodes, contexts)[k])
    {
      assert DefinitionsOnly(nodes, contexts[k]);
    }
  }

  /** The definitions on entry to a block. */
  ghost function EntryContext(f: Problem, out: Outs, b: nat): (ctx: Context<Site>)
    requires f.Valid() && Shaped(f, out) && b < |out|
    ensures Total(ctx)
  {
    map c | c in AllCells() :: In(f, out, b, c)
  }

  ghost predicate EntersWith(f: Problem, nodes: seq<Node>, contexts: seq<Context<nat>>, b: nat, ctx: Context<nat>)
    requires f.Valid() && b < |f.graph.blocks|
  {
    && Shaped(f, SiteOuts(nodes, contexts))
    && SiteContext(nodes, ctx) == EntryContext(f, SiteOuts(nodes, contexts), b)
  }

  /** What the listed blocks hold in a cell. */
  ghost function Joined(contexts: seq<Context<nat>>, pred: seq<nat>, c: Cell): set<nat> {
    set p, id | p in pred && p < |contexts| && id in Held(contexts[p], c) :: id
  }

  /** The context holds what the predecessors hold, and nothing else. */
  ghost predicate JoinsAll(f: Problem, contexts: seq<Context<nat>>, b: nat, ctx: Context<nat>) {
    && b < |f.graph.psTable| && Total(ctx)
    && forall c :: c in AllCells() ==> ctx[c] == Joined(contexts, f.graph.psTable[b].pred, c)
  }

  lemma JoinedNone(contexts: seq<Context<nat>>)
    ensures forall c :: Joined(contexts, [], c) == {}
  {
  }

  lemma JoinedOneMore(contexts: seq<Context<nat>>, pred: seq<nat>, i: nat, c: Cell)
    requires i < |pred| && pred[i] < |contexts|
    ensures Joined(contexts, pred[..i + 1], c) == Joined(contexts, pred[..i], c) + Held(contexts[pred[i]], c)
  {
    hide AllCells, Held;
    assert pred[..i + 1] == pred[..i] + [pred[i]];
  }

  lemma JoinedIsEntry(f: Problem, nodes: seq<Node>, contexts: seq<Context<nat>>, b: nat, ctx: Context<nat>)
    requires f.Valid() && b < |f.graph.blocks| == |contexts| && AllDefinitions(nodes, contexts)
    requires b < |f.graph.psTable| && JoinsAll(f, contexts, b, ctx)
    ensures DefinitionsOnly(nodes, ctx) && EntersWith(f, nodes, contexts, b, ctx)
  {
    hide AllCells, AllDefinitions, Definitions, InCell, Sites, Joined, Graph.Dual, Graph.UniqueStarts,
         Graph.OutsideIsLeaf;
    OutsShaped(f, nodes, contexts);
    forall c | c in AllCells()
      ensures Definitions(nodes, ctx[c]) && InCell(nodes, ctx[c], c)
      ensures Sites(nodes, ctx[c]) == In(f, SiteOuts(nodes, contexts), b, c)
    {
      JoinedIsIn(f, nodes, contexts, b, c);
    }
  }

  lemma JoinedIsIn(f: Problem, nodes: seq<Node>, contexts: seq<Context<nat>>, b: nat, c: Cell)
    requires f.Valid() && b < |f.graph.blocks| == |contexts| && AllDefinitions(nodes, contexts) && c in AllCells()
    requires Shaped(f, SiteOuts(nodes, contexts))
    ensures var ids := Joined(contexts, f.graph.psTable[b].pred, c);
      Definitions(nodes, ids) && InCell(nodes, ids, c) && Sites(nodes, ids) == In(f, SiteOuts(nodes, contexts), b, c)
  {
    hide AllCells, CellOf, IsDefinition, AllDefinitions, Graph.Dual, Graph.UniqueStarts, Graph.OutsideIsLeaf;
    var pred := f.graph.psTable[b].pred;
    var ids := Joined(contexts, pred, c);
    var out := SiteOuts(nodes, contexts);
    forall id | id in ids
      ensures id < |nodes| && IsDefinition(nodes[id]) && SiteOf(nodes[id]) in In(f, out, b, c)
      ensures InCell(nodes, {id}, c)
    {
      var p :| p in pred && p < |contexts| && id in Held(contexts[p], c);
      DefinitionsAt(nodes, contexts, p);
      assert SiteOf(nodes[id]) in out[p][c];
    }
    forall d | d in In(f, out, b, c)
      ensures d in Sites(nodes, ids)
    {
      var p :| p in pred && p < |out| && d in out[p][c];
      DefinitionsAt(nodes, contexts, p);
      var id :| id in contexts[p][c] && id < |nodes| && IsDefinition(nodes[id]) && SiteOf(nodes[id]) == d;
      assert id in Held(contexts[p], c);
    }
  }

  ghost predicate KnownBlock(f: Problem, b: nat)
    requires f.Valid() && f.graph.Internal(b)
  {
    forall pc :: f.Start(b) <= pc < f.Stop(b) ==> KnownRegisters(f.code[pc])
  }

  /** Holds in every state of the pass. */
  ghost predicate StateOf(f: Problem, nodes: seq<Node>, contexts: seq<Context<nat>>, sinks: seq<seq<nat>>) {
    && f.Valid() && |contexts| == |sinks| == |f.graph.blocks|
    && AllWellMade(f, nodes) && AllDefinitions(nodes, contexts)
    && Shaped(f, SiteOuts(nodes, contexts))
    && (forall k :: 0 <= k < |sinks| ==> Sinks(f, nodes, sinks[k]))
    && (forall k :: 0 <= k < |sinks| && !f.graph.Internal(k) ==> sinks[k] == [])
  }

  lemma StateStable(f: Problem, nodes: seq<Node>, nodes': seq<Node>, contexts: seq<Context<nat>>,
                    sinks: seq<seq<nat>>)
    requires StateOf(f, nodes, contexts, sinks) && nodes <= nodes' && AllWellMade(f, nodes')
    ensures StateOf(f, nodes', contexts, sinks) && SiteOuts(nodes', contexts) == SiteOuts(nodes, contexts)
    ensures forall k :: 0 <= k < |sinks| ==> ShapesOf(f, nodes', sinks[k]) == ShapesOf(f, nodes, sinks[k])
  {
    hide AllCells, AllWellMade, Definitions, DefinitionsOnly, SiteContext, Sinks, ShapesOf, Graph.Valid;
    forall k | 0 <= k < |contexts|
      ensures SiteContext(nodes', contexts[k]) == SiteContext(nodes, contexts[k])
      ensures DefinitionsOnly(nodes', contexts[k])
    {
      SiteContextStable(nodes, nodes', contexts[k]);
    }
    forall k | 0 <= k < |sinks|
      ensures Sinks(f, nodes', sinks[k]) && ShapesOf(f, nodes', sinks[k]) == ShapesOf(f, nodes, sinks[k])
    {
      ShapesStable(f, nodes, nodes', sinks[k]);
    }
    assert SiteOuts(nodes', contexts) == SiteOuts(nodes, contexts);
  }

  lemma StateUpdated(f: Problem, nodes: seq<Node>, contexts: seq<Context<nat>>, contexts': seq<Context<nat>>,
                     sinks: seq<seq<nat>>, sinks': seq<seq<nat>>, b: nat)
    requires StateOf(f, nodes, contexts, sinks) && f.graph.Internal(b)
    requires |contexts'| == |contexts| && |sinks'| == |sinks|
    requires contexts' == contexts[b := contexts'[b]] && DefinitionsOnly(nodes, contexts'[b])
    requires sinks' == sinks[b := sinks'[b]] && Sinks(f, nodes, sinks'[b])
    ensures StateOf(f, nodes, contexts', sinks')
    ensures SiteOuts(nodes, contexts') == SiteOuts(nodes, contexts)[b := SiteContext(nodes, contexts'[b])]
  {
    hide AllCells, AllWellMade, Definitions, DefinitionsOnly, SiteContext, Sinks, Graph.Valid;
    OutsShaped(f, nodes, contexts');
  }

  lemma ShapesConcat(f: Problem, nodes: seq<Node>, a: seq<nat>, b: seq<nat>)
    requires Sinks(f, nodes, a) && Sinks(f, nodes, b)
    ensures Sinks(f, nodes, a + b) && ShapesOf(f, nodes, a + b) == ShapesOf(f, nodes, a) + ShapesOf(f, nodes, b)
  {
    hide AllWellMade, ShapeOf;
  }

  lemma OneMadeAt(f: Problem, nodes: seq<Node>, id: nat, b: nat, pc: nat, operands: seq<Operand>)
    requires AllWellMade(f, nodes) && |nodes| == id + 1 && nodes[id].block == b && nodes[id].index == pc
    requires forall i :: 0 <= i < |nodes[id].inputs| ==> nodes[id].inputs[i] < |nodes|
    requires OperandsOf(nodes, nodes[id].inputs) == operands
    ensures MadeAt(f, nodes, id, b, pc, operands)
  {
    hide OperandsOf;
  }

  lemma NothingMadeIn(f: Problem, nodes: seq<Node>, b: nat, entry: Context<Site>)
    requires AllWellMade(f, nodes) && b < |f.graph.blocks| && f.Start(b) <= |f.code|
    ensures MadeIn(f, nodes, |nodes|, b, f.Start(b), entry)
  {
  }

  lemma ExpectedAtStart(f: Problem, b: nat, entry: Context<Site>)
    requires b < |f.graph.blocks| && f.Start(b) <= |f.code|
    ensures Before(f, b, f.Start(b), entry) == entry && ExpectedSinks(f, b, f.Start(b), entry) == []
  {
  }

  lemma ExpectedStep(f: Problem, b: nat, pc: nat, entry: Context<Site>)
    requires b < |f.graph.blocks| && f.Start(b) <= pc < |f.code|
    ensures Before(f, b, pc + 1, entry) == After(f, b, pc, Before(f, b, pc, entry))
    ensures ExpectedSinks(f, b, pc + 1, entry)
         == ExpectedSinks(f, b, pc, entry) + SinkAt(f, pc, Before(f, b, pc, entry))
  {
    hide EffectOf, ExpectedOperands;
  }

  lemma BeforeStopIsRecomputed(f: Problem, out: Outs, b: nat)
    requires f.Valid() && Shaped(f, out) && f.graph.Internal(b)
    ensures Before(f, b, f.Stop(b), EntryContext(f, out, b)) == RecomputedContext(f, out, b)
  {
    hide AllCells, Through;
  }

  // ---- Worklists ----

  ghost predicate SuccessorsListed(f: Problem, worklist: seq<nat>, b: nat)
    requires f.Valid() && f.graph.Internal(b)
  {
    forall s :: s in f.graph.psTable[b].succ && f.graph.Internal(s) ==> s in worklist
  }

  ghost function Unlisted(f: Problem, worklist: seq<nat>): set<int> {
    set b | 0 <= b < |f.graph.blocks| && b !in worklist
  }

  lemma UnlistedLess(f: Problem, worklist: seq<nat>, worklist': seq<nat>, b: nat)
    requires worklist' == worklist + [b] && b !in worklist && b < |f.graph.blocks|
    ensures Unlisted(f, worklist') < Unlisted(f, worklist)
  {
    assert b in worklist' && b in Unlisted(f, worklist);
  }

  lemma PrefixListed(a: seq<nat>, b: seq<nat>)
    requires a <= b
    ensures forall k :: k in a ==> k in b
  {
  }

  lemma UnlistedShrinks(f: Problem, worklist: seq<nat>, worklist': seq<nat>)
    requires worklist <= worklist'
    ensures Unlisted(f, worklist') <= Unlisted(f, worklist)
  {
    PrefixListed(worklist, worklist');
  }

  /** The listing after the blocks reachable from `b`, in depth-first order, are added to it. */
  ghost function Explored(f: Problem, worklist: seq<nat>, b: nat): (r: seq<nat>)
    requires f.Valid() && f.graph.Internal(b) && b !in worklist
    ensures worklist + [b] <= r
    decreases Unlisted(f, worklist), 0
  {
    UnlistedLess(f, worklist, worklist + [b], b);
    AllExplored(f, worklist + [b], f.graph.psTable[b].succ)
  }

  /** The same for the listed successors, one after the other. */
  ghost function AllExplored(f: Problem, worklist: seq<nat>, succ: seq<nat>): (r: seq<nat>)
    requires f.Valid()
    ensures worklist <= r
    decreases Unlisted(f, worklist), |succ| + 1
  {
    if succ == [] then worklist
    else
      var wl := AllExplored(f, worklist, succ[..|succ| - 1]);
      UnlistedShrinks(f, worklist, wl);
      Tried(f, wl, succ[|succ| - 1])
  }

  ghost function Tried(f: Problem, worklist: seq<nat>, s: nat): (r: seq<nat>)
    requires f.Valid()
    ensures worklist <= r
    decreases Unlisted(f, worklist), 1
  {
    if f.graph.Internal(s) && s !in worklist then Explored(f, worklist, s) else worklist
  }

  lemma ListedStays(f: Problem, worklist: seq<nat>, worklist': seq<nat>, b: nat)
    requires f.Valid() && f.graph.Internal(b) && worklist <= worklist' && SuccessorsListed(f, worklist, b)
    ensures SuccessorsListed(f, worklist', b)
  {
    PrefixListed(worklist, worklist');
  }

  ghost predicate AllEntered(f: Problem, blocks: seq<nat>) {
    forall k :: k in blocks && f.graph.Internal(k) ==> f.graph.Entered(k)
  }

  /** `r` extends the listing by entered blocks, with all their successors. */
  ghost predicate ListsMore(f: Problem, worklist: seq<nat>, r: seq<nat>)
    requires f.Valid()
  {
    && worklist <= r && f.graph.Distinct(r) && AllEntered(f, r)
    && forall k :: f.graph.Internal(k) && k in r && k !in worklist ==> SuccessorsListed(f, r, k)
  }

  /** The exploration lists entered blocks, once each, and with every block it adds all its successors. */
  lemma {:induction false} ExploredLists(f: Problem, worklist: seq<nat>, b: nat)
    requires f.Valid() && f.graph.Distinct(worklist) && AllEntered(f, worklist)
    requires f.graph.Internal(b) && b !in worklist && f.graph.Entered(b)
    ensures ListsMore(f, worklist, Explored(f, worklist, b))
    decreases Unlisted(f, worklist), 0
  {
    hide Graph.Dual, Graph.UniqueStarts, Graph.OutsideIsLeaf, Graph.Entered;
    UnlistedLess(f, worklist, worklist + [b], b);
    var succ := f.graph.psTable[b].succ;
    forall s | s in succ && f.graph.Internal(s)
      ensures f.graph.Entered(s)
    {
      f.graph.EdgeEntered(b, s);
    }
    AllExploredList(f, worklist + [b], succ);
  }

  lemma {:induction false} AllExploredList(f: Problem, worklist: seq<nat>, succ: seq<nat>)
    requires f.Valid() && f.graph.Distinct(worklist) && AllEntered(f, worklist) && AllEntered(f, succ)
    ensures var r := AllExplored(f, worklist, succ);
      ListsMore(f, worklist, r) && forall s :: s in succ && f.graph.Internal(s) ==> s in r
    decreases Unlisted(f, worklist), |succ| + 1
  {
    hide Graph.Dual, Graph.UniqueStarts, Graph.OutsideIsLeaf, Graph.Entered;
    if succ != [] {
      var (init, s) := (succ[..|succ| - 1], succ[|succ| - 1]);
      assert succ == init + [s];
      AllExploredList(f, worklist, init);
      var wl := AllExplored(f, worklist, init);
      if f.graph.Internal(s) && s !in wl {
        UnlistedShrinks(f, worklist, wl);
        ExploredLists(f, wl, s);
        ListsMoreTwice(f, worklist, wl, Explored(f, wl, s));
        PrefixListed(wl + [s], Explored(f, wl, s));
        assert (wl + [s])[|wl|] == s;
      }
    }
  }

  lemma ListsMoreTwice(f: Problem, a: seq<nat>, b: seq<nat>, c: seq<nat>)
    requires f.Valid() && ListsMore(f, a, b) && ListsMore(f, b, c)
    ensures ListsMore(f, a, c)
    ensures forall k :: k in b ==> k in c
  {
    hide Graph.Valid, Graph.Entered;
    forall k | f.graph.Internal(k) && k in c && k !in a
      ensures SuccessorsListed(f, c, k)
    {
      if k in b { ListedStays(f, b, c, k); }
    }
    PrefixListed(b, c);
  }

  /** What is listed first: every internal block that is entered. */
  lemma ExploredFromEntry(f: Problem)
    requires f.Valid()
    ensures f.graph.Distinct(Explored(f, [], 0))
    ensures forall b :: f.graph.Internal(b) ==> (b in Explored(f, [], 0) <==> f.graph.Entered(b))
  {
    hide Graph.Dual, Graph.UniqueStarts, Graph.OutsideIsLeaf, Graph.Entered, Graph.Path;
    f.graph.EntryEntered();
    ExploredLists(f, [], 0);
    var r := Explored(f, [], 0);
    assert r[0] == ([] + [0])[0];
    forall b: nat | f.graph.Internal(b) && f.graph.Entered(b)
      ensures b in r
    {
      var w := f.graph.EnteredPath(b);
      PathListed(f, r, w);
    }
  }

  lemma {:induction false} PathListed(f: Problem, worklist: seq<nat>, w: seq<nat>)
    requires f.Valid() && f.graph.Distinct(worklist) && f.graph.Path(w) && 0 in worklist
    requires forall k :: k in worklist ==> f.graph.Internal(k) && SuccessorsListed(f, worklist, k)
    ensures w[|w| - 1] in worklist
    decreases |w|
  {
    hide Graph.Valid;
    if |w| > 1 {
      var v := w[..|w| - 1];
      PathListed(f, worklist, v);
      assert f.graph.InnerEdge(w[|w| - 2], w[|w| - 1]);
    }
  }

  lemma WaitingAfter(worklist: seq<nat>, worklist': seq<nat>, b: nat)
    requires worklist != [] && b == worklist[0] && forall k :: k in worklist[1..] ==> k in worklist'
    ensures (set k | k in worklist) - {b} <= set k | k in worklist'
  {
    forall k | k in worklist && k != b
      ensures k in worklist'
    {
      var i :| 0 <= i < |worklist| && worklist[i] == k;
      assert worklist[1..][i - 1] == k;
    }
  }

  // ---- Sinks of the blocks that are not waiting ----

  /** The nodes of a pass, the contexts and the sinks of its blocks. */
  datatype Results = Results(nodes: seq<Node>, contexts: seq<Context<nat>>, sinks: seq<seq<nat>>)

  /** The block's sinks, and the operands of the definitions it makes, are those of a visit with this entry. */
  ghost predicate SunkFrom(f: Problem, r: Results, b: nat, entry: Context<Site>)
    requires f.Valid() && f.graph.Internal(b)
  {
    && b < |r.sinks| && b < |r.contexts| && Sinks(f, r.nodes, r.sinks[b]) && DefinitionsOnly(r.nodes, r.contexts[b])
    && ShapesOf(f, r.nodes, r.sinks[b]) == ExpectedShapes(f, b, entry)
    && UpToDate(f, r.nodes, r.contexts[b], b, entry)
  }

  /** They are those one more visit would give. */
  ghost predicate Sunk(f: Problem, r: Results, out: Outs, b: nat)
    requires f.Valid() && Shaped(f, out) && f.graph.Internal(b)
  {
    SunkFrom(f, r, b, EntryContext(f, out, b))
  }

  ghost predicate OthersSunk(f: Problem, r: Results, out: Outs, waiting: set<nat>)
    requires f.Valid() && Shaped(f, out)
  {
    forall b {:trigger Sunk(f, r, out, b)} ::
      f.graph.Internal(b) && b !in waiting ==> Sunk(f, r, out, b)
  }

  lemma EntrySame(f: Problem, x: Outs, y: Outs, b: nat)
    requires f.Valid() && Shaped(f, x) && Shaped(f, y) && f.graph.Internal(b)
    requires forall p :: p in f.graph.psTable[b].pred && p < |x| ==> x[p] == y[p]
    ensures EntryContext(f, x, b) == EntryContext(f, y, b)
  {
    hide AllCells, Graph.Dual, Graph.UniqueStarts, Graph.OutsideIsLeaf;
    forall c | c in AllCells()
      ensures In(f, x, b, c) == In(f, y, b, c)
    {
    }
  }

  lemma StillSunk(f: Problem, r: Results, r': Results, out: Outs, b: nat, waiting: set<nat>, waiting': set<nat>)
    requires f.Valid() && Shaped(f, out) && f.graph.Internal(b) && OthersSunk(f, r, out, waiting)
    requires r.nodes <= r'.nodes && AllWellMade(f, r'.nodes)
    requires |r.sinks| == |r'.sinks| == |r.contexts| == |r'.contexts| == |f.graph.blocks|
    requires forall k :: 0 <= k < |r.sinks| && k != b ==> r'.sinks[k] == r.sinks[k]
    requires forall k :: 0 <= k < |r.contexts| && k != b ==> r'.contexts[k] == r.contexts[k]
    requires Sunk(f, r', out, b)
    requires waiting - {b} <= waiting'
    requires Visited(f, out, b) != out ==>
      forall s :: s in f.graph.psTable[b].succ && f.graph.Internal(s) ==> s in waiting'
    ensures OthersSunk(f, r', Visited(f, out, b), waiting')
  {
    hide AllCells, SunkFrom, RecomputedContext, EntryContext, Graph.Dual, Graph.UniqueStarts, Graph.OutsideIsLeaf;
    var out' := Visited(f, out, b);
    forall k | f.graph.Internal(k) && k !in waiting'
      ensures Sunk(f, r', out', k)
    {
      if k != b {
        assert Sunk(f, r, out, k);
        SunkStable(f, r, r', k, EntryContext(f, out, k));
      }
      if out' != out {
        f.graph.EdgeBothWays(b, k);
        EntrySame(f, out, out', k);
      }
    }
  }

  lemma SunkStable(f: Problem, r: Results, r': Results, b: nat, entry: Context<Site>)
    requires f.Valid() && f.graph.Internal(b) && SunkFrom(f, r, b, entry)
    requires r.nodes <= r'.nodes && AllWellMade(f, r'.nodes) && b < |r'.sinks| && b < |r'.contexts|
    requires r'.sinks[b] == r.sinks[b] && r'.contexts[b] == r.contexts[b]
    ensures SunkFrom(f, r', b, entry)
  {
    hide AllCells, ShapesOf, ExpectedShapes, UpToDate, DefinitionsOnly, Graph.Valid;
    ShapesStable(f, r.nodes, r'.nodes, r.sinks[b]);
    SiteContextStable(r.nodes, r'.nodes, r.contexts[b]);
    UpToDateStable(f, r.nodes, r'.nodes, r.contexts[b], b, entry);
  }

  /** The outputs are the least solution, and every block's sinks and own definitions are those of one more pass
      over them. */
  ghost predicate Complete(f: Problem, nodes: seq<Node>, contexts: seq<Context<nat>>, sinks: seq<seq<nat>>) {
    && f.Valid() && Shaped(f, SiteOuts(nodes, contexts))
    && LeastFixpoint(f, SiteOuts(nodes, contexts))
    && OthersSunk(f, Results(nodes, contexts, sinks), SiteOuts(nodes, contexts), {})
  }

  lemma InitialState(f: Problem, contexts: seq<Context<nat>>, sinks: seq<seq<nat>>)
    requires f.Valid() && |contexts| == |sinks| == |f.graph.blocks|
    requires forall k :: 0 <= k < |contexts| ==> contexts[k] == EmptyContext() && sinks[k] == []
    ensures StateOf(f, [], contexts, sinks) && Growing(f, SiteOuts([], contexts))
  {
    hide AllCells, Growing, Graph.Valid;
    EmptyStaysEmpty();
    assert SiteOuts([], contexts) == Nothing(f);
    NothingGrowing(f);
  }

  lemma EmptyStaysEmpty()
    ensures SiteContext([], EmptyContext()) == EmptyContext() && DefinitionsOnly([], EmptyContext())
  {
    hide AllCells;
    forall c | c in AllCells()
      ensures SiteContext([], EmptyContext())[c] == {}
    {
    }
  }

  lemma StateFacts(f: Problem, nodes: seq<Node>, contexts: seq<Context<nat>>, sinks: seq<seq<nat>>)
    requires StateOf(f, nodes, contexts, sinks)
    ensures f.Valid() && AllWellMade(f, nodes) && Shaped(f, SiteOuts(nodes, contexts))
    ensures |contexts| == |sinks| == |f.graph.blocks|
    ensures forall k :: 0 <= k < |sinks| ==> Sinks(f, nodes, sinks[k]) && DefinitionsOnly(nodes, contexts[k])
  {
  }

  /** What is listed first. */
  ghost function First(f: Problem): (w: seq<nat>)
    requires f.Valid()
    ensures f.graph.Distinct(w)
  {
    ExploredFromEntry(f);
    Explored(f, [], 0)
  }

  ghost predicate Connected(f: Problem) {
    forall b :: f.graph.Internal(b) ==> f.graph.Entered(b)
  }
}
