/** The nodes of the data-flow pass, as definitions told apart by the visit that made them: the pass that compares the
    numbers of nodes goes through the states of `NodeCounting`. */
module NodeRuns {
  import opened Wrappers
  import opened MachineCode
  import opened ControlFlowGraphs
  import opened FlowContexts
  import opened ReachingDefinitions
  import opened ChaoticIteration
  import opened DataFlowNodes
  import opened DataFlowInvariants
  import opened CanonicalNodes
  import NC = NodeCounting
  import opened NodeConvergence

  // ---- Nodes as definitions ----

  /** `stamps` gives the number of the visit in which each node was made. */
  function Defs(nodes: seq<Node>, stamps: seq<nat>, ids: set<nat>): set<NC.Def> {
    set id | id in ids && id < |nodes| && id < |stamps| && IsDefinition(nodes[id])
      :: NC.Def(SiteOf(nodes[id]), stamps[id])
  }

  function DefContext(nodes: seq<Node>, stamps: seq<nat>, ctx: Context<nat>): Context<NC.Def> {
    map c | c in ctx :: Defs(nodes, stamps, ctx[c])
  }

  function DefOuts(nodes: seq<Node>, stamps: seq<nat>, contexts: seq<Context<nat>>): (r: seq<Context<NC.Def>>)
    ensures |r| == |contexts|
  {
    seq(|contexts|, k requires 0 <= k < |contexts| => DefContext(nodes, stamps, contexts[k]))
  }

  ghost predicate SameDef(nodes: seq<Node>, stamps: seq<nat>, x: nat, y: nat) {
    SameSite(nodes, x, y) && x < |stamps| && y < |stamps| && stamps[x] == stamps[y]
  }

  /** Some block holds the node in the cell. */
  ghost predicate Live(contexts: seq<Context<nat>>, c: Cell, id: nat) {
    exists k :: 0 <= k < |contexts| && id in Held(contexts[k], c)
  }

  /** No two nodes that blocks hold in a cell come from the same site and visit. */
  ghost predicate Apart(nodes: seq<Node>, stamps: seq<nat>, contexts: seq<Context<nat>>) {
    forall c, x, y :: Live(contexts, c, x) && Live(contexts, c, y) && SameDef(nodes, stamps, x, y) ==> x == y
  }

  /** The blocks hold the nodes of this state of the run. */
  ghost predicate Represents(f: Problem, nodes: seq<Node>, stamps: seq<nat>, contexts: seq<Context<nat>>, r: NC.Run) {
    && f.Valid() && |contexts| == |f.graph.blocks| && AllDefinitions(nodes, contexts)
    && |stamps| == |nodes| && (forall id :: 0 <= id < |stamps| ==> stamps[id] <= r.visits)
    && Apart(nodes, stamps, contexts)
    && r.out == DefOuts(nodes, stamps, contexts)
  }

  function Stamped(stamps: seq<nat>, count: nat, visit: nat): (r: seq<nat>)
    ensures |r| == |stamps| + count && stamps <= r
    ensures forall id :: |stamps| <= id < |r| ==> r[id] == visit
  {
    stamps + seq(count, _ => visit)
  }

  lemma DefsStable(nodes: seq<Node>, nodes': seq<Node>, stamps: seq<nat>, stamps': seq<nat>, ids: set<nat>)
    requires nodes <= nodes' && stamps <= stamps' && |stamps| == |nodes| && Definitions(nodes, ids)
    ensures Defs(nodes', stamps', ids) == Defs(nodes, stamps, ids)
  {
    hide IsDefinition;
  }

  lemma DefContextStable(nodes: seq<Node>, nodes': seq<Node>, stamps: seq<nat>, stamps': seq<nat>, ctx: Context<nat>)
    requires nodes <= nodes' && stamps <= stamps' && |stamps| == |nodes| && DefinitionsOnly(nodes, ctx)
    ensures DefContext(nodes', stamps', ctx) == DefContext(nodes, stamps, ctx)
  {
    hide AllCells, Definitions, InCell, Defs;
    forall c | c in AllCells() { DefsStable(nodes, nodes', stamps, stamps', ctx[c]); }
  }

  lemma SitesOfDefs(nodes: seq<Node>, stamps: seq<nat>, ids: set<nat>)
    requires |stamps| == |nodes|
    ensures NC.SitesOf(Defs(nodes, stamps, ids)) == Sites(nodes, ids)
  {
    hide IsDefinition;
    forall s | s in Sites(nodes, ids)
      ensures s in NC.SitesOf(Defs(nodes, stamps, ids))
    {
      var id :| id in ids && id < |nodes| && IsDefinition(nodes[id]) && SiteOf(nodes[id]) == s;
      assert NC.Def(s, stamps[id]) in Defs(nodes, stamps, ids);
    }
  }

  lemma {:induction false} SizeOfDefs(nodes: seq<Node>, stamps: seq<nat>, ids: set<nat>)
    requires |stamps| == |nodes| && Definitions(nodes, ids)
    requires forall x, y :: x in ids && y in ids && SameDef(nodes, stamps, x, y) ==> x == y
    ensures |Defs(nodes, stamps, ids)| == |ids|
    decreases |ids|
  {
    hide IsDefinition;
    if ids != {} {
      var x :| x in ids;
      var rest := ids - {x};
      SizeOfDefs(nodes, stamps, rest);
      var d := NC.Def(SiteOf(nodes[x]), stamps[x]);
      assert Defs(nodes, stamps, ids) == Defs(nodes, stamps, rest) + {d};
      assert forall y :: y in rest ==> !SameDef(nodes, stamps, x, y);
      assert d !in Defs(nodes, stamps, rest);
    }
  }

  lemma SitesAgree(f: Problem, nodes: seq<Node>, stamps: seq<nat>, contexts: seq<Context<nat>>)
    requires |stamps| == |nodes| && |contexts| == |f.graph.blocks| && AllDefinitions(nodes, contexts)
    ensures NC.TotalOuts(f, DefOuts(nodes, stamps, contexts))
    ensures NC.OutSites(DefOuts(nodes, stamps, contexts)) == SiteOuts(nodes, contexts)
  {
    hide AllCells, Defs, Sites, Definitions, InCell;
    var out := DefOuts(nodes, stamps, contexts);
    forall k | 0 <= k < |contexts|
      ensures Total(out[k]) && NC.OutSites(out)[k] == SiteContext(nodes, contexts[k])
    {
      DefinitionsAt(nodes, contexts, k);
      forall c | c in AllCells() { SitesOfDefs(nodes, stamps, contexts[k][c]); }
    }
  }

  // ---- One visit ----

  /** A cell that the block leaves alone. */
  lemma JoinedDefs(f: Problem, nodes: seq<Node>, stamps: seq<nat>, contexts: seq<Context<nat>>, b: nat, c: Cell)
    requires f.Valid() && b < |f.graph.blocks| == |contexts| && c in AllCells() && AllDefinitions(nodes, contexts)
    requires |stamps| == |nodes| && NC.TotalOuts(f, DefOuts(nodes, stamps, contexts)) && b < |f.graph.psTable|
    ensures Defs(nodes, stamps, Joined(contexts, f.graph.psTable[b].pred, c))
         == NC.InNew(f, DefOuts(nodes, stamps, contexts), b, c)
  {
    hide AllCells, IsDefinition, AllDefinitions, Graph.Dual, Graph.UniqueStarts, Graph.OutsideIsLeaf;
    var pred := f.graph.psTable[b].pred;
    var out := DefOuts(nodes, stamps, contexts);
    var ids := Joined(contexts, pred, c);
    forall d | d in Defs(nodes, stamps, ids)
      ensures d in NC.InNew(f, out, b, c)
    {
      var id :| id in ids && id < |nodes| && IsDefinition(nodes[id]) && d == NC.Def(SiteOf(nodes[id]), stamps[id]);
      var p :| p in pred && p < |contexts| && id in Held(contexts[p], c);
      assert d in out[p][c];
    }
    forall d | d in NC.InNew(f, out, b, c)
      ensures d in Defs(nodes, stamps, ids)
    {
      var p :| p in pred && p < |out| && d in out[p][c];
      var id :| id in contexts[p][c] && id < |nodes| && IsDefinition(nodes[id])
                && d == NC.Def(SiteOf(nodes[id]), stamps[id]);
      assert id in Held(contexts[p], c);
    }
  }

  lemma SameSitesSameDefs(s: set<NC.Def>, t: set<NC.Def>, visit: nat)
    requires NC.SitesOf(s) == NC.SitesOf(t)
    requires (forall d :: d in s ==> d.visit == visit) && (forall d :: d in t ==> d.visit == visit)
    ensures s <= t
  {
    forall d | d in s
      ensures d in t
    {
      assert d.site in NC.SitesOf(s);
      var e :| e in t && e.site == d.site;
    }
  }

  /** What the visit leaves in one cell. */
  lemma VisitCell(f: Problem, nodes: seq<Node>, nodes': seq<Node>, stamps: seq<nat>, contexts: seq<Context<nat>>,
                  b: nat, ids: set<nat>, visit: nat, c: Cell)
    requires f.Valid() && f.graph.Internal(b) && |contexts| == |f.graph.blocks| && AllDefinitions(nodes, contexts)
    requires c in AllCells() && |stamps| == |nodes| && nodes <= nodes' && Shaped(f, SiteOuts(nodes, contexts))
    requires b < |f.graph.psTable|
    requires if Clear(f, b, f.Start(b), f.Stop(b), c) then ids == Joined(contexts, f.graph.psTable[b].pred, c)
             else New(ids, |nodes|)
    requires Sites(nodes', ids) == Recomputed(f, SiteOuts(nodes, contexts), b, c)
    requires NC.TotalOuts(f, DefOuts(nodes, stamps, contexts))
    ensures Defs(nodes', Stamped(stamps, |nodes'| - |nodes|, visit), ids)
         == NC.ThroughNew(f, b, f.Stop(b), c, NC.InNew(f, DefOuts(nodes, stamps, contexts), b, c), visit)
  {
    hide AllCells, Clear, EffectOf, Sites, IsDefinition, Definitions, InCell, AllDefinitions, Stamped,
         Graph.Dual, Graph.UniqueStarts, Graph.OutsideIsLeaf;
    var out := DefOuts(nodes, stamps, contexts);
    var stamps' := Stamped(stamps, |nodes'| - |nodes|, visit);
    var given := NC.InNew(f, out, b, c);
    if Clear(f, b, f.Start(b), f.Stop(b), c) {
      JoinedIsIn(f, nodes, contexts, b, c);
      DefsStable(nodes, nodes', stamps, stamps', ids);
      JoinedDefs(f, nodes, stamps, contexts, b, c);
      NC.ThroughClear(f, b, f.Stop(b), c, given, visit);
    } else {
      NC.ThroughRecent(f, b, f.Stop(b), c, given, visit);
      SitesOfDefs(nodes', stamps', ids);
      SitesAgree(f, nodes, stamps, contexts);
      NC.InSites(f, out, b, c);
      NC.ThroughSites(f, b, f.Stop(b), c, given, visit);
      var made := NC.ThroughNew(f, b, f.Stop(b), c, given, visit);
      SameSitesSameDefs(Defs(nodes', stamps', ids), made, visit);
      SameSitesSameDefs(made, Defs(nodes', stamps', ids), visit);
    }
  }

  /** What a visit is known to have done to the nodes. */
  ghost predicate VisitedNodes(f: Problem, nodes: seq<Node>, nodes': seq<Node>, contexts: seq<Context<nat>>, b: nat,
                               entry: Context<nat>, ctx: Context<nat>)
    requires f.Valid() && f.graph.Internal(b) && Shaped(f, SiteOuts(nodes, contexts))
  {
    && nodes <= nodes' && DefinitionsOnly(nodes', ctx)
    && JoinsAll(f, contexts, b, entry) && Renewed(f, b, f.Stop(b), entry, ctx, |nodes|)
    && SiteContext(nodes', ctx) == RecomputedContext(f, SiteOuts(nodes, contexts), b)
  }

  lemma NodesVisited(f: Problem, nodes: seq<Node>, nodes': seq<Node>, contexts: seq<Context<nat>>,
                     contexts': seq<Context<nat>>, b: nat, entry: Context<nat>)
    requires f.Valid() && f.graph.Internal(b) && Shaped(f, SiteOuts(nodes, contexts)) && b < |contexts'|
    requires nodes <= nodes' && DefinitionsOnly(nodes', contexts'[b])
    requires JoinsAll(f, contexts, b, entry) && Renewed(f, b, f.Stop(b), entry, contexts'[b], |nodes|)
    requires SiteOuts(nodes', contexts') == Visited(f, SiteOuts(nodes, contexts), b)
    ensures VisitedNodes(f, nodes, nodes', contexts, b, entry, contexts'[b])
  {
    hide AllCells, Graph.Valid, RecomputedContext, SiteContext, DefinitionsOnly, JoinsAll, Renewed;
    assert SiteOuts(nodes', contexts')[b] == SiteContext(nodes', contexts'[b]);
  }

  lemma VisitContext(f: Problem, nodes: seq<Node>, nodes': seq<Node>, stamps: seq<nat>, contexts: seq<Context<nat>>,
                     r: NC.Run, b: nat, entry: Context<nat>, ctx: Context<nat>)
    requires Represents(f, nodes, stamps, contexts, r) && f.graph.Internal(b) && Shaped(f, SiteOuts(nodes, contexts))
    requires VisitedNodes(f, nodes, nodes', contexts, b, entry, ctx) && NC.TotalOuts(f, r.out)
    ensures DefContext(nodes', Stamped(stamps, |nodes'| - |nodes|, r.visits + 1), ctx)
         == NC.NewContext(f, r.out, b, r.visits + 1)
  {
    hide AllCells, Clear, EffectOf, Sites, Definitions, InCell, AllDefinitions, Stamped, Defs, Apart, Through,
         NC.ThroughNew, NC.InNew, Joined, In, Graph.Dual, Graph.UniqueStarts, Graph.OutsideIsLeaf;
    forall c | c in AllCells()
      ensures Defs(nodes', Stamped(stamps, |nodes'| - |nodes|, r.visits + 1), ctx[c])
           == NC.NewContext(f, r.out, b, r.visits + 1)[c]
    {
      assert Held(ctx, c) == ctx[c] && Held(entry, c) == entry[c];
      VisitCell(f, nodes, nodes', stamps, contexts, b, ctx[c], r.visits + 1, c);
    }
  }

  lemma LiveAfter(f: Problem, contexts: seq<Context<nat>>, b: nat, entry: Context<nat>, ctx: Context<nat>, c: Cell,
                  id: nat, from: nat)
    requires b < |contexts| == |f.graph.blocks| && f.Stop(b) <= |f.code|
    requires JoinsAll(f, contexts, b, entry) && Renewed(f, b, f.Stop(b), entry, ctx, from)
    requires Live(contexts[b := ctx], c, id)
    ensures Live(contexts, c, id) || (New(Held(ctx, c), from) && id in Held(ctx, c))
  {
    hide AllCells, Clear;
    var k :| 0 <= k < |contexts| && id in Held(contexts[b := ctx][k], c);
    if k != b {
      assert id in Held(contexts[k], c);
    } else if !New(Held(ctx, c), from) {
      assert id in Joined(contexts, f.graph.psTable[b].pred, c);
    }
  }

  lemma StaysApart(f: Problem, nodes: seq<Node>, nodes': seq<Node>, stamps: seq<nat>, contexts: seq<Context<nat>>,
                   r: NC.Run, b: nat, entry: Context<nat>, ctx: Context<nat>)
    requires Represents(f, nodes, stamps, contexts, r) && f.graph.Internal(b) && nodes <= nodes'
    requires JoinsAll(f, contexts, b, entry) && Renewed(f, b, f.Stop(b), entry, ctx, |nodes|)
    ensures Apart(nodes', Stamped(stamps, |nodes'| - |nodes|, r.visits + 1), contexts[b := ctx])
  {
    hide AllCells, Clear, EffectOf, Renewed, JoinsAll, Live, New, IsDefinition, Definitions, InCell,
         Graph.Dual, Graph.UniqueStarts, Graph.OutsideIsLeaf;
    var stamps' := Stamped(stamps, |nodes'| - |nodes|, r.visits + 1);
    var contexts' := contexts[b := ctx];
    forall c, x, y | Live(contexts', c, x) && Live(contexts', c, y) && SameDef(nodes', stamps', x, y)
      ensures x == y
    {
      LiveAfter(f, contexts, b, entry, ctx, c, x, |nodes|);
      LiveAfter(f, contexts, b, entry, ctx, c, y, |nodes|);
      if Live(contexts, c, x) { LiveKnown(nodes, contexts, c, x); }
      if Live(contexts, c, y) { LiveKnown(nodes, contexts, c, y); }
      if New(Held(ctx, c), |nodes|) { OnlyOne(Held(ctx, c), |nodes|); }
    }
  }

  lemma LiveKnown(nodes: seq<Node>, contexts: seq<Context<nat>>, c: Cell, id: nat)
    requires AllDefinitions(nodes, contexts) && Live(contexts, c, id)
    ensures id < |nodes|
  {
    hide AllCells, IsDefinition;
    var k :| 0 <= k < |contexts| && id in Held(contexts[k], c);
    DefinitionsAt(nodes, contexts, k);
  }

  lemma OnlyOne(ids: set<nat>, from: nat)
    requires New(ids, from)
    ensures forall x, y :: x in ids && y in ids ==> from <= x && from <= y && x == y
  {
    forall x, y | x in ids && y in ids
      ensures x == y
    {
      SubsetSize({x, y}, ids);
    }
  }

  /** The block holds as many nodes in each cell as the run has definitions there. */
  lemma SizesAgree(f: Problem, nodes: seq<Node>, stamps: seq<nat>, contexts: seq<Context<nat>>, b: nat)
    requires |stamps| == |nodes| && AllDefinitions(nodes, contexts) && Apart(nodes, stamps, contexts) && b < |contexts|
    ensures Sizes(DefOuts(nodes, stamps, contexts)[b]) == Sizes(contexts[b])
  {
    hide AllCells, IsDefinition, Defs, InCell;
    DefinitionsAt(nodes, contexts, b);
    forall c | c in AllCells()
      ensures |Defs(nodes, stamps, contexts[b][c])| == |contexts[b][c]|
    {
      forall x | x in contexts[b][c]
        ensures Live(contexts, c, x)
      {
        assert x in Held(contexts[b], c);
      }
      SizeOfDefs(nodes, stamps, contexts[b][c]);
    }
  }

  /** A visit takes the run one step on: the outputs are those of the next state, and the numbers of nodes change
      exactly when its numbers of definitions do. */
  lemma VisitRepresents(f: Problem, nodes: seq<Node>, nodes': seq<Node>, stamps: seq<nat>, contexts: seq<Context<nat>>,
                        r: NC.Run, entry: Context<nat>, ctx: Context<nat>)
    requires Represents(f, nodes, stamps, contexts, r) && NC.Proper(f, r) && r.worklist != []
    requires f.graph.Internal(r.worklist[0]) && Shaped(f, SiteOuts(nodes, contexts))
    requires VisitedNodes(f, nodes, nodes', contexts, r.worklist[0], entry, ctx)
    ensures var (b, stamps') := (r.worklist[0], Stamped(stamps, |nodes'| - |nodes|, r.visits + 1));
      && Represents(f, nodes', stamps', contexts[b := ctx], NC.Advance(f, r))
      && NC.Advance(f, r).worklist
         == if Sizes(contexts[b]) != Sizes(ctx) then f.graph.Pushed(r.worklist[1..], f.graph.psTable[b].succ)
            else r.worklist[1..]
  {
    hide AllCells, Apart, Stamped, Defs, Definitions, InCell, Renewed, JoinsAll, NC.NewContext, NC.TotalOuts,
         Graph.Pushed, Graph.Valid, SiteContext, RecomputedContext;
    var b := r.worklist[0];
    var stamps' := Stamped(stamps, |nodes'| - |nodes|, r.visits + 1);
    var contexts' := contexts[b := ctx];
    VisitContext(f, nodes, nodes', stamps, contexts, r, b, entry, ctx);
    StaysApart(f, nodes, nodes', stamps, contexts, r, b, entry, ctx);
    forall k | 0 <= k < |contexts|
      ensures DefinitionsOnly(nodes', contexts'[k])
      ensures k != b ==> DefContext(nodes', stamps', contexts[k]) == DefContext(nodes, stamps, contexts[k])
    {
      DefinitionsAt(nodes, contexts, k);
      SiteContextStable(nodes, nodes', contexts[k]);
      DefContextStable(nodes, nodes', stamps, stamps', contexts[k]);
    }
    SizesAgree(f, nodes, stamps, contexts, b);
    SizesAgree(f, nodes', stamps', contexts', b);
    assert DefOuts(nodes', stamps', contexts') == NC.Advance(f, r).out;
    assert forall id :: 0 <= id < |stamps'| ==> stamps'[id] <= r.visits + 1 by {
      StampsBelow(stamps, |nodes'| - |nodes|, r.visits);
    }
  }

  lemma StampsBelow(stamps: seq<nat>, count: nat, visits: nat)
    requires forall id :: 0 <= id < |stamps| ==> stamps[id] <= visits
    ensures var t := Stamped(stamps, count, visits + 1); forall id :: 0 <= id < |t| ==> t[id] <= visits + 1
  {
    var t := Stamped(stamps, count, visits + 1);
    forall id | 0 <= id < |t|
      ensures t[id] <= visits + 1
    {
      if id < |stamps| { assert t[id] == stamps[id]; }
    }
  }

  // ---- Whole runs ----

  lemma InitialRepresents(f: Problem, worklist: seq<nat>, contexts: seq<Context<nat>>)
    requires f.Valid() && f.graph.Distinct(worklist) && |contexts| == |f.graph.blocks|
    requires forall k :: 0 <= k < |contexts| ==> contexts[k] == EmptyContext()
    ensures NC.Proper(f, NC.Initial(f, worklist))
    ensures Represents(f, [], [], contexts, NC.Initial(f, worklist))
  {
    hide AllCells, Graph.Valid, Graph.Distinct;
    EmptyStaysEmpty();
    NC.InitialProper(f, worklist);
    assert DefContext([], [], EmptyContext()) == EmptyContext<NC.Def>() by { EmptyDefs(); }
    assert DefOuts([], [], contexts) == NC.Initial(f, worklist).out;
  }

  lemma EmptyDefs()
    ensures DefContext([], [], EmptyContext()) == EmptyContext<NC.Def>()
  {
    hide AllCells;
    forall c | c in AllCells()
      ensures Defs([], [], {}) == {}
    {
    }
  }

  /** The whole run of the code, cut off after `limit` visits. */
  ghost function RunOf(f: Problem, limit: nat): (r: NC.Run)
    requires f.Valid()
    ensures NC.Proper(f, r) && NC.Proper(f, NC.Initial(f, First(f)))
  {
    NC.InitialProper(f, First(f));
    NC.After(f, NC.Initial(f, First(f)), limit)
  }

  lemma RunStarts(f: Problem)
    requires f.Valid()
    ensures First(f) == Explored(f, [], 0) && RunOf(f, 0) == NC.Initial(f, First(f)) && RunOf(f, 0).worklist == First(f)
  {
  }

  /** What a block was given in the last of its visits, if it was visited. */
  ghost function Given(f: Problem, limit: nat, b: nat): Option<Context<Site>>
    requires f.Valid() && f.graph.Internal(b)
  {
    LastEntry(f, First(f), limit, b)
  }

  /** Every block has the sinks and makes the definitions of its last visit. */
  ghost predicate AsGiven(f: Problem, limit: nat, r: Results)
    requires f.Valid()
  {
    && |r.sinks| == |r.contexts| == |f.graph.blocks|
    && forall b {:trigger Given(f, limit, b)} :: f.graph.Internal(b) ==>
         match Given(f, limit, b)
         case None => r.sinks[b] == []
         case Some(entry) => SunkFrom(f, r, b, entry)
  }

  /** Every block that was visited names known registers only. */
  ghost predicate VisitedKnown(f: Problem, limit: nat)
    requires f.Valid()
  {
    forall b {:trigger Given(f, limit, b)} :: f.graph.Internal(b) && Given(f, limit, b).Some? ==> KnownBlock(f, b)
  }

  lemma NothingGiven(f: Problem, r: Results)
    requires f.Valid() && |r.sinks| == |r.contexts| == |f.graph.blocks|
    requires forall b :: 0 <= b < |r.sinks| ==> r.sinks[b] == []
    ensures AsGiven(f, 0, r) && VisitedKnown(f, 0)
  {
    hide AllCells, Explored, Graph.Valid;
  }

  /** A visit. */
  lemma VisitGives(f: Problem, n: nat, r: Results, r': Results, b: nat, entry: Context<Site>)
    requires f.Valid() && AsGiven(f, n, r) && RunOf(f, n).worklist != [] && b == RunOf(f, n).worklist[0]
    requires VisitedKnown(f, n) && f.graph.Internal(b) && KnownBlock(f, b) && Shaped(f, NC.OutSites(RunOf(f, n).out))
    requires entry == EntryContext(f, NC.OutSites(RunOf(f, n).out), b)
    requires r.nodes <= r'.nodes && AllWellMade(f, r'.nodes)
    requires |r'.sinks| == |r'.contexts| == |f.graph.blocks| && SunkFrom(f, r', b, entry)
    requires forall k :: 0 <= k < |r.sinks| && k != b ==> r'.sinks[k] == r.sinks[k] && r'.contexts[k] == r.contexts[k]
    ensures AsGiven(f, n + 1, r') && VisitedKnown(f, n + 1)
  {
    hide AllCells, SunkFrom, EntryContext, NC.OutSites, First, Graph.Valid, NC.Initial, NC.After, AllWellMade,
         KnownBlock;
    forall k | f.graph.Internal(k)
      ensures match Given(f, n + 1, k)
        case None => r'.sinks[k] == []
        case Some(e) => SunkFrom(f, r', k, e) && KnownBlock(f, k)
    {
      if k != b {
        assert Given(f, n + 1, k) == Given(f, n, k);
        if Given(f, n, k).Some? { SunkStable(f, r, r', k, Given(f, n, k).value); }
      }
    }
  }

  lemma HeadInternal(f: Problem, n: nat)
    requires f.Valid() && RunOf(f, n).worklist != []
    ensures var w := RunOf(f, n).worklist; f.graph.Internal(w[0]) && f.graph.Distinct(w) && f.graph.Distinct(w[1..])
  {
    hide AllCells, NC.After, NC.Initial, Graph.Valid;
    f.graph.TailDistinct(RunOf(f, n).worklist);
  }

  /** What the pass makes in its first `limit` visits, node by node; phi inputs are in a fixed order. */
  ghost function PassOf(f: Problem, limit: nat): (r: Results)
    requires f.Valid()
    ensures |r.contexts| == |r.sinks| == |f.graph.blocks|
  {
    hide AllCells, CellSet, RunOf, VisitMakes, Graph.Valid, Graph.Distinct;
    if limit == 0 then Results([], seq(|f.graph.blocks|, _ => EmptyContext()), seq(|f.graph.blocks|, _ => []))
    else
      var (r, worklist) := (PassOf(f, limit - 1), RunOf(f, limit - 1).worklist);
      if worklist == [] then r
      else
        HeadInternal(f, limit - 1);
        VisitMakes(f, worklist[0], r)
  }

  ghost function VisitMakes(f: Problem, b: nat, r: Results): (r': Results)
    requires f.Valid() && f.graph.Internal(b) && |r.contexts| == |r.sinks| == |f.graph.blocks|
    ensures |r'.contexts| == |r'.sinks| == |f.graph.blocks|
  {
    if KnownBlock(f, b) && b < |f.graph.psTable| then
      var (nodes, ctx, made) := WithVisit(f, b, r.nodes, r.contexts);
      Results(nodes, r.contexts[b := ctx], r.sinks[b := made])
    else r
  }

  ghost function Canonical(r: Results): Results { r.(nodes := Canon(r.nodes)) }

  /** The pass is in the state of the node-counting run after `n` visits. */
  ghost predicate Following(f: Problem, n: nat, stamps: seq<nat>, r: Results, worklist: seq<nat>) {
    && StateOf(f, r.nodes, r.contexts, r.sinks) && Represents(f, r.nodes, stamps, r.contexts, RunOf(f, n))
    && worklist == RunOf(f, n).worklist && AsGiven(f, n, r) && VisitedKnown(f, n)
    && Canonical(r) == PassOf(f, n)
  }

  /** What a visit to the next block does. */
  ghost predicate VisitDone(f: Problem, r: Results, r': Results, b: nat, entry: Context<nat>) {
    && StateOf(f, r.nodes, r.contexts, r.sinks) && StateOf(f, r'.nodes, r'.contexts, r'.sinks) && r.nodes <= r'.nodes
    && f.graph.Internal(b) && KnownBlock(f, b) && b < |r'.contexts| && r'.contexts == r.contexts[b := r'.contexts[b]]
    && b < |r'.sinks| && r'.sinks == r.sinks[b := r'.sinks[b]] && b < |f.graph.psTable|
    && (Canon(r'.nodes), r'.contexts[b], r'.sinks[b]) == WithVisit(f, b, Canon(r.nodes), r.contexts)
    && JoinsAll(f, r.contexts, b, entry) && Renewed(f, b, f.Stop(b), entry, r'.contexts[b], |r.nodes|)
    && SiteOuts(r'.nodes, r'.contexts) == Visited(f, SiteOuts(r.nodes, r.contexts), b)
    && SunkFrom(f, r', b, EntryContext(f, SiteOuts(r.nodes, r.contexts), b))
  }

  /** All that a visit keeps. */
  lemma OneMore(f: Problem, n: nat, stamps: seq<nat>, r: Results, r': Results, worklist: seq<nat>, worklist': seq<nat>,
                entry: Context<nat>)
    requires Following(f, n, stamps, r, worklist) && worklist != [] && VisitDone(f, r, r', worklist[0], entry)
    requires worklist[0] < |f.graph.psTable| && worklist[0] < |r.contexts| && worklist[0] < |r'.contexts|
    requires worklist' == if Sizes(r.contexts[worklist[0]]) != Sizes(r'.contexts[worklist[0]])
                          then f.graph.Pushed(worklist[1..], f.graph.psTable[worklist[0]].succ) else worklist[1..]
    ensures Following(f, n + 1, Stamped(stamps, |r'.nodes| - |r.nodes|, RunOf(f, n).visits + 1), r', worklist')
  {
    hide AllCells, Represents, VisitedNodes, AsGiven, EntryContext, Visited, JoinsAll, Renewed, SiteOuts, NC.OutSites,
         NC.Advance, First, Graph.Pushed, Graph.Valid, UpToDate, ShapesOf, Sinks, DefinitionsOnly, AllWellMade,
         ExpectedShapes, NC.Initial, NC.Proper, Sizes, Shaped, VisitedKnown, KnownBlock, StateOf, WithVisit, Canon;
    StateFacts(f, r.nodes, r.contexts, r.sinks);
    StateFacts(f, r'.nodes, r'.contexts, r'.sinks);
    var (q, b) := (RunOf(f, n), worklist[0]);
    RepresentsSites(f, r.nodes, stamps, r.contexts, q);
    NodesVisited(f, r.nodes, r'.nodes, r.contexts, r'.contexts, b, entry);
    VisitRepresents(f, r.nodes, r'.nodes, stamps, r.contexts, q, entry, r'.contexts[b]);
    VisitGives(f, n, r, r', b, EntryContext(f, SiteOuts(r.nodes, r.contexts), b));
    assert RunOf(f, n + 1) == NC.Advance(f, q);
    assert Canonical(r') == VisitMakes(f, b, Canonical(r));
  }

  lemma FollowingHead(f: Problem, n: nat, stamps: seq<nat>, r: Results, worklist: seq<nat>)
    requires Following(f, n, stamps, r, worklist)
    ensures f.Valid() && StateOf(f, r.nodes, r.contexts, r.sinks) && Shaped(f, SiteOuts(r.nodes, r.contexts))
    ensures worklist != [] ==>
      && f.graph.Internal(worklist[0]) && f.graph.Distinct(worklist[1..])
      && worklist[0] < |f.graph.psTable| && worklist[0] < |r.contexts|
  {
    hide AllCells, Represents, AsGiven, VisitedKnown, SiteOuts, AllWellMade, AllDefinitions, Graph.Dual,
         Graph.UniqueStarts, Graph.OutsideIsLeaf, RunOf, Shaped;
    if worklist != [] { HeadInternal(f, n); }
  }

  /** Nothing waits: nothing changes any more. */
  lemma EndedGives(f: Problem, n: nat, r: Results)
    requires f.Valid() && AsGiven(f, n, r) && VisitedKnown(f, n) && RunOf(f, n).worklist == []
    ensures AsGiven(f, n + 1, r) && VisitedKnown(f, n + 1) && RunOf(f, n + 1) == RunOf(f, n)
  {
    hide AllCells, SunkFrom, EntryContext, NC.OutSites, First, Graph.Valid, NC.Initial;
    NC.EmptyStays(f, RunOf(f, n));
    forall k | f.graph.Internal(k)
      ensures Given(f, n + 1, k) == Given(f, n, k)
    {
    }
  }

  lemma EndedFollows(f: Problem, n: nat, stamps: seq<nat>, r: Results)
    requires Following(f, n, stamps, r, [])
    ensures Following(f, n + 1, stamps, r, [])
  {
    hide AllCells, Represents, AsGiven, VisitedKnown, StateOf, RunOf;
    StateFacts(f, r.nodes, r.contexts, r.sinks);
    EndedGives(f, n, r);
  }

  /** Whatever nodes are counted, the blocks only ever hold definitions that reach, and all of them exactly when every
      block satisfies its equation. */
  lemma RunIsSound(f: Problem, limit: nat, nodes: seq<Node>, stamps: seq<nat>, contexts: seq<Context<nat>>)
    requires f.Valid() && Represents(f, nodes, stamps, contexts, RunOf(f, limit))
    ensures var out := SiteOuts(nodes, contexts);
      && Shaped(f, out) && out == NC.OutSites(RunOf(f, limit).out) && Leq(out, PathOuts(f))
      && (OthersSolved(f, out, {}) <==> LeastFixpoint(f, out))
  {
    hide AllCells, Explored, OthersSolved, LeastFixpoint, PathOuts, Growing, NC.After, Graph.Valid, AllDefinitions;
    NC.InitialProper(f, First(f));
    NC.CountedRunsAreSound(f, First(f), limit);
    SitesAgree(f, nodes, stamps, contexts);
  }

  lemma RepresentsSites(f: Problem, nodes: seq<Node>, stamps: seq<nat>, contexts: seq<Context<nat>>, r: NC.Run)
    requires Represents(f, nodes, stamps, contexts, r)
    ensures SiteOuts(nodes, contexts) == NC.OutSites(r.out)
  {
    SitesAgree(f, nodes, stamps, contexts);
  }

  /** No sink has an operand that could not come to it. */
  lemma GivenBelow(f: Problem, limit: nat, b: nat)
    requires f.Valid() && f.graph.Internal(b) && Given(f, limit, b).Some?
    ensures Within(Given(f, limit, b).value, EntryContext(f, PathOuts(f), b))
  {
    LastEntryBelow(f, First(f), limit, b);
  }

  // ---- When everything is found ----

  lemma FirstListsAll(f: Problem)
    requires f.Valid() && Connected(f)
    ensures ListsAll(f, First(f))
  {
    hide AllCells, Explored, Graph.Valid, Graph.Entered, Graph.Distinct;
    ExploredFromEntry(f);
  }

  /** If changes are noticed, a run that has ended is complete, sinks included. */
  lemma EndedComplete(f: Problem, limit: nat, stamps: seq<nat>, r: Results)
    requires f.Valid() && Connected(f) && Noticed(f, First(f)) && RunOf(f, limit).worklist == []
    requires Represents(f, r.nodes, stamps, r.contexts, RunOf(f, limit)) && AsGiven(f, limit, r)
    ensures Complete(f, r.nodes, r.contexts, r.sinks)
  {
    hide AllCells, Noticed, Represents, First, Explored, LeastFixpoint, OthersSolved, SunkFrom, EntryContext, Leq,
         PathOuts, Connected, Graph.Valid, NC.After, NC.Initial, NC.OutSites, SiteOuts;
    RunIsSound(f, limit, r.nodes, stamps, r.contexts);
    FirstListsAll(f);
    EndsRight(f, First(f), limit);
    var out := SiteOuts(r.nodes, r.contexts);
    forall b | f.graph.Internal(b)
      ensures Sunk(f, r, out, b)
    {
      LastEntryFresh(f, First(f), limit, b);
      assert Given(f, limit, b) == Some(EntryContext(f, out, b));
    }
    assert Results(r.nodes, r.contexts, r.sinks) == r;
  }

  /** If every definition comes one way, the run of the code ends with everything found. */
  lemma OneWayRun(f: Problem) returns (n: nat)
    requires f.Valid() && Connected(f) && AllOneWay(f, First(f))
    ensures RunOf(f, n).worklist == [] && LeastFixpoint(f, NC.OutSites(RunOf(f, n).out))
    ensures Noticed(f, First(f))
  {
    hide AllCells, AllOneWay, Noticed, First, Explored, LeastFixpoint, Graph.Valid, NC.After, NC.Initial, NC.OutSites;
    FirstListsAll(f);
    n := OneWayEndsRight(f, First(f));
    OneWayNoticed(f, First(f));
  }

  lemma PassBegins(f: Problem, contexts: seq<Context<nat>>, sinks: seq<seq<nat>>)
    requires f.Valid() && |contexts| == |sinks| == |f.graph.blocks|
    requires forall k :: 0 <= k < |contexts| ==> contexts[k] == EmptyContext() && sinks[k] == []
    ensures Canonical(Results([], contexts, sinks)) == PassOf(f, 0)
  {
    hide AllCells, CellSet, Graph.Valid;
    var r := PassOf(f, 0);
    assert forall k :: 0 <= k < |contexts| ==> contexts[k] == r.contexts[k] && sinks[k] == r.sinks[k];
    assert contexts == r.contexts && sinks == r.sinks;
  }

  /** The state in which the run starts. */
  lemma RunBegins(f: Problem, contexts: seq<Context<nat>>, sinks: seq<seq<nat>>)
    requires f.Valid() && |contexts| == |sinks| == |f.graph.blocks|
    requires forall k :: 0 <= k < |contexts| ==> contexts[k] == EmptyContext() && sinks[k] == []
    ensures Following(f, 0, [], Results([], contexts, sinks), Explored(f, [], 0))
  {
    hide AllCells, CellSet, Growing, StateOf, Represents, AsGiven, Explored, NC.Initial, Graph.Valid;
    InitialState(f, contexts, sinks);
    RunStarts(f);
    InitialRepresents(f, First(f), contexts);
    NothingGiven(f, Results([], contexts, sinks));
    PassBegins(f, contexts, sinks);
  }

  /** If every definition comes one way, no block ever holds two nodes of one site, and numbers of nodes are numbers
      of sites. */
  lemma RunCountsSites(f: Problem, n: nat, nodes: seq<Node>, stamps: seq<nat>, contexts: seq<Context<nat>>, b: nat)
    requires f.Valid() && Represents(f, nodes, stamps, contexts, RunOf(f, n)) && AllOneWay(f, First(f))
    requires b < |contexts|
    ensures OneNodePerSite(nodes, contexts[b])
    ensures Sizes(contexts[b]) == Sizes(SiteContext(nodes, contexts[b]))
  {
    hide AllCells, OneWay, First, Sizes, SiteContext, NC.After, NC.Initial, Graph.Valid, IsDefinition, InCell;
    var k := AfterTracked(f, First(f), n);
    var r := RunOf(f, n);
    DefinitionsAt(nodes, contexts, b);
    TrackedSingle(f, First(f), k, r);
    hide SingleDefs, Apart, Definitions;
    forall c, x, y | c in contexts[b] && x in contexts[b][c] && y in contexts[b][c] && SameSite(nodes, x, y)
      ensures x == y
    {
      SameSiteSame(nodes, stamps, contexts, b, c, x, y);
    }
    CountsAgree(nodes, contexts[b]);
  }

  lemma SameSiteSame(nodes: seq<Node>, stamps: seq<nat>, contexts: seq<Context<nat>>, b: nat, c: Cell, x: nat, y: nat)
    requires |stamps| == |nodes| && Apart(nodes, stamps, contexts) && b < |contexts| && c in contexts[b]
    requires SingleDefs(DefOuts(nodes, stamps, contexts), c)
    requires x in contexts[b][c] && y in contexts[b][c] && SameSite(nodes, x, y)
    ensures x == y
  {
    hide IsDefinition, SiteOf;
    var (d, e) := (NC.Def(SiteOf(nodes[x]), stamps[x]), NC.Def(SiteOf(nodes[y]), stamps[y]));
    var out := DefOuts(nodes, stamps, contexts);
    assert d in out[b][c] && e in out[b][c];
    assert x in Held(contexts[b], c) && y in Held(contexts[b], c);
    assert Live(contexts, c, x) && Live(contexts, c, y);
  }

  lemma TrackedSingle(f: Problem, w: seq<nat>, k: nat, r: NC.Run)
    requires Tracked(f, w, k, r) && AllOneWay(f, w)
    ensures forall c :: c in AllCells() ==> SingleDefs(r.out, c)
  {
    hide AllCells, OneWay, SingleDefs, Graph.Valid;
  }

  /** When the run has ended, every block was visited. */
  lemma EndedGiven(f: Problem, limit: nat, b: nat)
    requires f.Valid() && Connected(f) && RunOf(f, limit).worklist == [] && f.graph.Internal(b)
    ensures Given(f, limit, b).Some?
  {
    hide AllCells, First, Noticed, EntryContext, NC.OutSites, NC.After, NC.Initial, Graph.Valid, Connected;
    FirstListsAll(f);
    LastEntryFresh(f, First(f), limit, b);
  }

  /** What is known of the state in which it stops. */
  lemma RunStops(f: Problem, limit: nat, stamps: seq<nat>, r: Results, worklist: seq<nat>)
    requires Following(f, limit, stamps, r, worklist) && f.Valid() && Connected(f)
    ensures var out := SiteOuts(r.nodes, r.contexts);
      Shaped(f, out) && Leq(out, PathOuts(f)) && (OthersSolved(f, out, {}) <==> LeastFixpoint(f, out))
    ensures worklist == [] && Noticed(f, First(f)) ==> Complete(f, r.nodes, r.contexts, r.sinks)
    ensures worklist == [] ==> forall b :: f.graph.Internal(b) ==> KnownBlock(f, b)
  {
    hide AllCells, Represents, AsGiven, Noticed, Complete, LeastFixpoint, OthersSolved, PathOuts, RunOf, First, Leq,
         Shaped, SiteOuts, Connected, StateOf, KnownBlock, Graph.Valid;
    RunIsSound(f, limit, r.nodes, stamps, r.contexts);
    if worklist == [] {
      if Noticed(f, First(f)) { EndedComplete(f, limit, stamps, r); }
      forall b | f.graph.Internal(b)
        ensures KnownBlock(f, b)
      {
        EndedGiven(f, limit, b);
      }
    }
  }
}
