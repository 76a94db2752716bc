/** Functions on which the run that counts nodes never ends: those with a loop that may or may not pass a definition on
    its way round. */
module EndlessRuns {
  import opened MachineCode
  import opened ControlFlowGraphs
  import opened FlowContexts
  import opened ReachingDefinitions
  import opened NodeCounting

  /** The blocks of `w` follow one another round a loop and pass a cell on.  The last of them goes back to the first,
      or first to `a`, which is entered only from there, defines the cell, and goes to the first. */
  ghost predicate LoopAround(f: Problem, w: seq<nat>, a: nat, d: Site) {
    && f.Valid() && 0 < |w| && f.graph.Internal(a) && d.block == a && Born(f, d)
    && (forall i :: 0 <= i < |w| ==> Passing(f, w[i], d.cell))
    && (forall i :: 0 <= i < |w| - 1 ==> w[i + 1] in f.graph.psTable[w[i]].succ)
    && f.graph.psTable[w[|w| - 1]].succ == [w[0], a]
    && (forall p :: p in f.graph.psTable[a].pred ==> p == w[|w| - 1])
    && w[0] in f.graph.psTable[a].succ
    && (w[0] != w[|w| - 1] ==> forall s :: s in f.graph.psTable[a].succ && f.graph.Internal(s) ==> s == w[0])
  }

  ghost predicate Passing(f: Problem, b: nat, c: Cell)
    requires f.Valid()
  {
    f.graph.Internal(b) && Clear(f, b, f.Start(b), f.Stop(b), c)
  }

  lemma AroundFacts(f: Problem, w: seq<nat>, a: nat, d: Site)
    requires LoopAround(f, w, a, d)
    ensures d.cell in AllCells() && |f.graph.blocks| <= |f.graph.psTable|
    ensures forall i :: 0 <= i < |w| ==> w[i] != a && w[i] < |f.graph.blocks|
    ensures forall i :: 0 < i < |w| ==> w[i - 1] in f.graph.psTable[w[i]].pred
    ensures w[|w| - 1] in f.graph.psTable[w[0]].pred && a in f.graph.psTable[w[0]].pred
    ensures forall b :: f.graph.Internal(b) && a in f.graph.psTable[b].succ ==> b == w[|w| - 1]
    ensures w[0] != w[|w| - 1] ==> forall b :: f.graph.Internal(b) && a in f.graph.psTable[b].pred ==> b == w[0]
  {
    hide AllCells, EffectOf, Graph.Dual, Graph.UniqueStarts, Graph.OutsideIsLeaf;
    BornCell(f, d);
    forall i | 0 <= i < |w|
      ensures w[i] != a && w[i] < |f.graph.blocks|
    {
      assert Passing(f, w[i], d.cell);
    }
    forall i | 0 < i < |w|
      ensures w[i - 1] in f.graph.psTable[w[i]].pred
    {
      assert w[(i - 1) + 1] in f.graph.psTable[w[i - 1]].succ;
      f.graph.EdgeBothWays(w[i - 1], w[i]);
    }
    assert f.graph.psTable[w[|w| - 1]].succ[0] == w[0];
    f.graph.EdgeBothWays(w[|w| - 1], w[0]);
    f.graph.EdgeBothWays(a, w[0]);
    forall b: nat | f.graph.Internal(b)
      ensures a in f.graph.psTable[b].succ ==> b == w[|w| - 1]
      ensures w[0] != w[|w| - 1] && a in f.graph.psTable[b].pred ==> b == w[0]
    {
      f.graph.EdgeBothWays(b, a);
      f.graph.EdgeBothWays(a, b);
    }
  }

  // ---- Visits ----

  /** A block that passes the cell takes what its predecessors hold. */
  lemma PassTakes(f: Problem, out: seq<Context<Def>>, b: nat, p: nat, c: Cell, visit: nat)
    requires f.Valid() && TotalOuts(f, out) && Passing(f, b, c) && c in AllCells()
    requires b < |f.graph.psTable| && p in f.graph.psTable[b].pred && p < |out|
    ensures out[p][c] <= NewContext(f, out, b, visit)[c]
  {
    hide AllCells, ThroughNew, Graph.Dual, Graph.UniqueStarts, Graph.OutsideIsLeaf;
    ThroughClear(f, b, f.Stop(b), c, InNew(f, out, b, c), visit);
  }

  /** An older node of another block came from a predecessor. */
  lemma CameFrom(f: Problem, out: seq<Context<Def>>, b: nat, c: Cell, visit: nat, x: Def)
    requires f.Valid() && TotalOuts(f, out) && f.graph.Internal(b) && c in AllCells() && b < |f.graph.psTable|
    requires x in NewContext(f, out, b, visit)[c] && x.site.block != b && x.visit < visit
    ensures Passing(f, b, c)
    ensures exists p: nat :: p in f.graph.psTable[b].pred && p < |out| && x in out[p][c]
  {
    hide AllCells, ThroughNew, Graph.Dual, Graph.UniqueStarts, Graph.OutsideIsLeaf;
    var given := InNew(f, out, b, c);
    ThroughOrigin(f, b, f.Stop(b), c, given, visit);
    if !Clear(f, b, f.Start(b), f.Stop(b), c) { ThroughRecent(f, b, f.Stop(b), c, given, visit); }
  }

  lemma VisitDefines(f: Problem, out: seq<Context<Def>>, d: Site, visit: nat)
    requires f.Valid() && TotalOuts(f, out) && Born(f, d) && d.cell in AllCells()
    ensures NewContext(f, out, d.block, visit)[d.cell] == {Def(d, visit)}
  {
    hide AllCells, ThroughNew, Clear, Graph.Dual, Graph.UniqueStarts, Graph.OutsideIsLeaf;
    ThroughBorn(f, d, f.Stop(d.block), InNew(f, out, d.block, d.cell), visit);
  }

  // ---- The invariant ----

  function Held(r: Run, b: nat, c: Cell): set<Def> {
    if b < |r.out| && c in r.out[b] then r.out[b][c] else {}
  }

  /** Along the loop, a block that does not wait holds at least as many nodes as the one before it. */
  ghost predicate Chain(r: Run, w: seq<nat>, c: Cell) {
    forall i {:trigger w[i]} :: 0 < i < |w| ==> w[i] in r.worklist || |Held(r, w[i - 1], c)| <= |Held(r, w[i], c)|
  }

  ghost predicate One(s: set<Def>, d: Site) {
    |s| == 1 && forall x :: x in s ==> x.site == d
  }

  /** The next visit to `a` comes before the next one to the loop's start. */
  ghost predicate Pending(r: Run, w: seq<nat>, a: nat, d: Site)
    requires 0 < |w|
  {
    a in r.worklist && (Held(r, a, d.cell) == {} || (One(Held(r, a, d.cell), d) && Precedes(r.worklist, a, w[0])))
  }

  /** Nobody but `a` has its new node, or at least the loop's end has not, and the loop's start waits. */
  ghost predicate Fresh(r: Run, w: seq<nat>, a: nat, d: Site)
    requires 0 < |w|
  {
    && One(Held(r, a, d.cell), d) && w[0] in r.worklist && a !in r.worklist
    && Held(r, a, d.cell) !! Held(r, w[|w| - 1], d.cell)
    && (w[0] != w[|w| - 1] ==> forall k :: k != a ==> Held(r, a, d.cell) !! Held(r, k, d.cell))
  }

  /** The node is on its way: who has it holds more nodes than the loop's end, and so does the loop's start. */
  ghost predicate Going(r: Run, w: seq<nat>, a: nat, d: Site)
    requires 0 < |w|
  {
    var last := |Held(r, w[|w| - 1], d.cell)|;
    && One(Held(r, a, d.cell), d) && a !in r.worklist && |Held(r, w[0], d.cell)| > last
    && forall k :: k != a && !(Held(r, a, d.cell) !! Held(r, k, d.cell)) ==> |Held(r, k, d.cell)| > last
  }

  ghost predicate Turning(f: Problem, r: Run, w: seq<nat>, a: nat, d: Site)
    requires 0 < |w|
  {
    && Proper(f, r) && Dated(f, r) && Chain(r, w, d.cell)
    && (Pending(r, w, a, d) || Fresh(r, w, a, d) || Going(r, w, a, d))
  }

  /** Something waits. */
  lemma {:induction false} ChainWaits(r: Run, w: seq<nat>, c: Cell, i: nat)
    requires Chain(r, w, c) && i < |w| && r.worklist == []
    ensures |Held(r, w[0], c)| <= |Held(r, w[i], c)|
    decreases i
  {
    hide Held;
    if i > 0 {
      ChainWaits(r, w, c, i - 1);
      assert w[i] !in r.worklist;
    }
  }

  lemma TurningWaits(f: Problem, r: Run, w: seq<nat>, a: nat, d: Site)
    requires 0 < |w| && Turning(f, r, w, a, d)
    ensures r.worklist != []
  {
    hide Held, Proper, Dated;
    if r.worklist == [] { ChainWaits(r, w, d.cell, |w| - 1); }
  }

  // ---- Steps ----

  /** What a step changes in one cell, and in the worklist. */
  ghost predicate StepInCell(f: Problem, r: Run, q: Run, c: Cell)
    requires f.Valid() && c in AllCells()
  {
    && r.worklist != [] && f.graph.Internal(r.worklist[0]) && r.worklist[0] < |f.graph.psTable|
    && r.worklist[0] < |r.out| == |q.out| && TotalOuts(f, r.out)
    && var b := r.worklist[0];
      && (forall k :: k != b ==> Held(q, k, c) == Held(r, k, c))
      && Held(q, b, c) == NewContext(f, r.out, b, r.visits + 1)[c]
      && StepLists(f, r, q)
      && (|Held(q, b, c)| != |Held(r, b, c)| ==> q.worklist == f.graph.Pushed(r.worklist[1..], f.graph.psTable[b].succ))
      && (q.worklist == r.worklist[1..] || q.worklist == f.graph.Pushed(r.worklist[1..], f.graph.psTable[b].succ))
  }

  lemma StepsInCell(f: Problem, r: Run, c: Cell)
    requires Proper(f, r) && r.worklist != [] && c in AllCells()
    ensures f.Valid() && Proper(f, Advance(f, r)) && StepInCell(f, r, Advance(f, r), c)
  {
    hide AllCells, NewContext, Graph.Pushed, Sizes, StepLists, Graph.Dual, Graph.UniqueStarts, Graph.OutsideIsLeaf;
    StepFacts(f, r, c);
  }

  lemma TotalHeld(f: Problem, r: Run, b: nat, c: Cell)
    requires TotalOuts(f, r.out) && b < |r.out| && c in AllCells()
    ensures c in r.out[b] && Held(r, b, c) == r.out[b][c]
  {
    assert Total(r.out[b]);
  }

  lemma ChainStep(f: Problem, r: Run, q: Run, w: seq<nat>, a: nat, d: Site)
    requires LoopAround(f, w, a, d) && d.cell in AllCells() && StepInCell(f, r, q, d.cell) && Chain(r, w, d.cell)
    ensures Chain(q, w, d.cell)
  {
    hide AllCells, NewContext, Graph.Pushed, Graph.Valid, Held, Born, Clear;
    AroundFacts(f, w, a, d);
    var b := r.worklist[0];
    forall i | 0 < i < |w|
      ensures w[i] in q.worklist || |Held(q, w[i - 1], d.cell)| <= |Held(q, w[i], d.cell)|
    {
      if b == w[i] {
        assert Passing(f, w[i], d.cell);
        TakesHeld(f, r, q, w[i - 1], d.cell);
      } else {
        InTail(r.worklist, w[i]);
        assert b == w[i - 1] ==> w[(i - 1) + 1] in f.graph.psTable[w[i - 1]].succ && Passing(f, w[i], d.cell);
      }
    }
  }

  /** The visited block, if it passes the cell, then has all its predecessor has. */
  lemma TakesHeld(f: Problem, r: Run, q: Run, p: nat, c: Cell)
    requires f.Valid() && c in AllCells() && StepInCell(f, r, q, c) && Passing(f, r.worklist[0], c)
    requires p in f.graph.psTable[r.worklist[0]].pred && p < |f.graph.blocks|
    ensures Held(r, p, c) <= Held(q, r.worklist[0], c)
    ensures |Held(r, p, c)| <= |Held(q, r.worklist[0], c)|
    ensures p != r.worklist[0] ==> |Held(q, p, c)| <= |Held(q, r.worklist[0], c)|
  {
    hide AllCells, NewContext, StepLists, Graph.Pushed, Graph.Valid;
    TotalHeld(f, r, p, c);
    PassTakes(f, r.out, r.worklist[0], p, c, r.visits + 1);
    SubsetSize(Held(r, p, c), Held(q, r.worklist[0], c));
  }

  /** A node of `a` that the visited block holds afterwards came from a predecessor that held it. */
  lemma HolderStep(f: Problem, r: Run, q: Run, a: nat, d: Site)
    requires f.Valid() && d.cell in AllCells() && StepInCell(f, r, q, d.cell) && Proper(f, r) && Dated(f, r)
    requires r.worklist[0] != a && d.block == a && One(Held(r, a, d.cell), d)
    requires !(Held(r, a, d.cell) !! Held(q, r.worklist[0], d.cell))
    ensures Passing(f, r.worklist[0], d.cell)
    ensures exists p: nat :: p in f.graph.psTable[r.worklist[0]].pred && HolderBlock(f, r, a, d.cell, p)
  {
    hide AllCells, NewContext, StepLists, Graph.Pushed, Graph.Valid, Passing;
    var (b, c) := (r.worklist[0], d.cell);
    var x :| x in Held(r, a, c) && x in Held(q, b, c);
    CameFrom(f, r.out, b, c, r.visits + 1, x);
    var p: nat :| p in f.graph.psTable[b].pred && p < |r.out| && x in r.out[p][c];
    TotalHeld(f, r, p, c);
    assert x in Held(r, p, c);
    assert HolderBlock(f, r, a, c, p);
  }

  ghost predicate HolderBlock(f: Problem, r: Run, a: nat, c: Cell, p: nat) {
    p < |f.graph.blocks| && !(Held(r, a, c) !! Held(r, p, c))
  }

  /** A visit to `a` while it is pending. */
  lemma VisitA(f: Problem, r: Run, q: Run, w: seq<nat>, a: nat, d: Site)
    requires LoopAround(f, w, a, d) && d.cell in AllCells() && StepInCell(f, r, q, d.cell)
    requires Proper(f, r) && Dated(f, r) && r.worklist[0] == a && Pending(r, w, a, d)
    ensures Fresh(q, w, a, d)
  {
    hide AllCells, NewContext, Graph.Pushed, Graph.Valid, Held, Born, Clear;
    AroundFacts(f, w, a, d);
    var c := d.cell;
    VisitDefines(f, r.out, d, r.visits + 1);
    InTail(r.worklist, w[0]);
    assert Passing(f, w[0], c);
    forall k | k != a
      ensures Held(q, a, c) !! Held(q, k, c)
    {
      OlderNodes(f, r, k, c);
    }
    assert a !in f.graph.psTable[a].succ;
  }

  lemma OlderNodes(f: Problem, r: Run, k: nat, c: Cell)
    requires Proper(f, r) && Dated(f, r) && c in AllCells()
    ensures forall x :: x in Held(r, k, c) ==> x.visit <= r.visits
  {
    hide AllCells, Graph.Valid;
  }

  /** The loop's end makes `a` wait in front of the loop's start. */
  lemma PushesInFront(g: Graph, tail: seq<nat>, t: nat, a: nat)
    requires g.Internal(t) && g.Internal(a) && t != a && a !in tail
    ensures a in g.Pushed(tail, [t, a]) && Precedes(g.Pushed(tail, [t, a]), a, t)
  {
    assert [t, a][..1] == [t] && [t][..0] == [];
    var wl := if t in tail then tail else [t] + tail;
    assert g.Pushed(tail, [t]) == wl;
    assert g.Pushed(tail, [t, a]) == [a] + wl;
    var j :| 0 <= j < |wl| && wl[j] == t;
    assert ([a] + wl)[0] == a && ([a] + wl)[j + 1] == t;
  }

  lemma PendingStep(f: Problem, r: Run, q: Run, w: seq<nat>, a: nat, d: Site)
    requires LoopAround(f, w, a, d) && d.cell in AllCells() && StepInCell(f, r, q, d.cell) && r.worklist[0] != a
    requires Pending(r, w, a, d)
    ensures Pending(q, w, a, d)
  {
    hide AllCells, NewContext, Graph.Pushed, Graph.Valid, Held, Born, Clear, One;
    InTail(r.worklist, a);
    if Precedes(r.worklist, a, w[0]) {
      PrecedesTail(r.worklist, a, w[0]);
      PrecedesInFront(r.worklist[1..], q.worklist, a, w[0]);
    }
  }

  /** The loop's end is visited: either it makes `a` wait, or it has as many nodes as before. */
  lemma EndPushes(f: Problem, r: Run, q: Run, w: seq<nat>, a: nat, d: Site)
    requires LoopAround(f, w, a, d) && d.cell in AllCells() && StepInCell(f, r, q, d.cell)
    requires r.worklist[0] == w[|w| - 1] && a !in r.worklist && One(Held(r, a, d.cell), d)
    ensures Pending(q, w, a, d) || (a !in q.worklist && |Held(q, w[|w| - 1], d.cell)| == |Held(r, w[|w| - 1], d.cell)|)
  {
    hide AllCells, NewContext, Graph.Pushed, Graph.Valid, Held, Born, Clear, One;
    AroundFacts(f, w, a, d);
    assert Passing(f, w[0], d.cell);
    if q.worklist != r.worklist[1..] { PushesInFront(f.graph, r.worklist[1..], w[0], a); }
    else if |Held(q, w[|w| - 1], d.cell)| != |Held(r, w[|w| - 1], d.cell)| {
      PushesInFront(f.graph, r.worklist[1..], w[0], a);
    }
  }

  /** The loop's start is visited: it gets what the loop's end has, and the new node. */
  lemma StartTakes(f: Problem, r: Run, q: Run, w: seq<nat>, a: nat, d: Site)
    requires LoopAround(f, w, a, d) && d.cell in AllCells() && StepInCell(f, r, q, d.cell)
    requires r.worklist[0] == w[0] && One(Held(r, a, d.cell), d)
    requires Held(r, a, d.cell) !! Held(r, w[|w| - 1], d.cell)
    ensures |Held(q, w[0], d.cell)| > |Held(r, w[|w| - 1], d.cell)|
  {
    hide AllCells, NewContext, Graph.Pushed, Graph.Valid, Held, Born, Clear, StepLists;
    AroundFacts(f, w, a, d);
    assert Passing(f, w[0], d.cell);
    var (x, y) := (Held(r, a, d.cell), Held(r, w[|w| - 1], d.cell));
    TakesHeld(f, r, q, a, d.cell);
    TakesHeld(f, r, q, w[|w| - 1], d.cell);
    SubsetSize(x + y, Held(q, w[0], d.cell));
  }

  /** The loop's start gets the new node. */
  lemma FreshStart(f: Problem, r: Run, q: Run, w: seq<nat>, a: nat, d: Site)
    requires LoopAround(f, w, a, d) && d.cell in AllCells() && StepInCell(f, r, q, d.cell)
    requires r.worklist[0] == w[0] && Fresh(r, w, a, d)
    ensures Pending(q, w, a, d) || Going(q, w, a, d)
  {
    hide AllCells, NewContext, Graph.Pushed, Graph.Valid, Held, Born, Clear, One;
    AroundFacts(f, w, a, d);
    var (t, e, c) := (w[0], w[|w| - 1], d.cell);
    StartTakes(f, r, q, w, a, d);
    if t == e {
      EndPushes(f, r, q, w, a, d);
    } else {
      assert a in f.graph.psTable[t].succ ==> t == e;
      InTail(r.worklist, a);
      forall k | k != a && k != t
        ensures Held(q, a, c) !! Held(q, k, c)
      {
      }
    }
  }

  lemma FreshOther(f: Problem, r: Run, q: Run, w: seq<nat>, a: nat, d: Site)
    requires LoopAround(f, w, a, d) && d.cell in AllCells() && StepInCell(f, r, q, d.cell)
    requires r.worklist[0] != a && r.worklist[0] != w[0] && Proper(f, r) && Dated(f, r) && Fresh(r, w, a, d)
    ensures Pending(q, w, a, d) || Fresh(q, w, a, d)
  {
    hide AllCells, NewContext, Graph.Pushed, Graph.Valid, Held, Born, Clear, One, Proper, Dated;
    AroundFacts(f, w, a, d);
    var (b, e, c) := (r.worklist[0], w[|w| - 1], d.cell);
    InTail(r.worklist, w[0]);
    InTail(r.worklist, a);
    if w[0] != e && !(Held(r, a, c) !! Held(q, b, c)) { OnlyStartTakes(f, r, q, w, a, d); }
    if b == e {
      EndPushes(f, r, q, w, a, d);
    } else {
      assert a !in f.graph.psTable[b].succ;
    }
    if w[0] != e {
      forall k | k != a && k != b
        ensures Held(q, a, c) !! Held(q, k, c)
      {
      }
    }
  }

  /** While nobody else has the new node, only the loop's start can get it. */
  lemma OnlyStartTakes(f: Problem, r: Run, q: Run, w: seq<nat>, a: nat, d: Site)
    requires LoopAround(f, w, a, d) && d.cell in AllCells() && StepInCell(f, r, q, d.cell)
    requires r.worklist[0] != a && Proper(f, r) && Dated(f, r) && Fresh(r, w, a, d)
    requires !(Held(r, a, d.cell) !! Held(q, r.worklist[0], d.cell)) && w[0] != w[|w| - 1]
    ensures r.worklist[0] == w[0]
  {
    hide AllCells, NewContext, StepLists, Graph.Pushed, Graph.Valid, Held, Born, Clear, One, Proper, Dated;
    AroundFacts(f, w, a, d);
    HolderStep(f, r, q, a, d);
    var p: nat :| p in f.graph.psTable[r.worklist[0]].pred && HolderBlock(f, r, a, d.cell, p);
    assert p == a;
  }

  lemma FreshStep(f: Problem, r: Run, q: Run, w: seq<nat>, a: nat, d: Site)
    requires LoopAround(f, w, a, d) && d.cell in AllCells() && StepInCell(f, r, q, d.cell) && r.worklist[0] != a
    requires Proper(f, r) && Dated(f, r) && Fresh(r, w, a, d)
    ensures Pending(q, w, a, d) || Fresh(q, w, a, d) || Going(q, w, a, d)
  {
    hide AllCells, NewContext, StepLists, Pending, Fresh, Going, Proper, Dated, Born, Clear, Graph.Valid, Graph.Pushed;
    if r.worklist[0] == w[0] { FreshStart(f, r, q, w, a, d); } else { FreshOther(f, r, q, w, a, d); }
  }

  /** Who gets the new node, and the loop's start, then holds more nodes than the loop's end did. */
  lemma GoingHolder(f: Problem, r: Run, q: Run, w: seq<nat>, a: nat, d: Site)
    requires LoopAround(f, w, a, d) && d.cell in AllCells() && StepInCell(f, r, q, d.cell) && r.worklist[0] != a
    requires Proper(f, r) && Dated(f, r) && Going(r, w, a, d)
    requires r.worklist[0] == w[0] || !(Held(r, a, d.cell) !! Held(q, r.worklist[0], d.cell))
    ensures |Held(q, r.worklist[0], d.cell)| > |Held(r, w[|w| - 1], d.cell)|
  {
    hide AllCells, NewContext, StepLists, Graph.Pushed, Graph.Valid, Held, Born, Clear, One, Proper, Dated;
    AroundFacts(f, w, a, d);
    var (b, c) := (r.worklist[0], d.cell);
    if b == w[0] {
      StartTakes(f, r, q, w, a, d);
    } else {
      HolderStep(f, r, q, a, d);
      var p: nat :| p in f.graph.psTable[b].pred && HolderBlock(f, r, a, c, p);
      assert p != a;
      TakesHeld(f, r, q, p, c);
    }
  }

  lemma GoingStep(f: Problem, r: Run, q: Run, w: seq<nat>, a: nat, d: Site)
    requires LoopAround(f, w, a, d) && d.cell in AllCells() && StepInCell(f, r, q, d.cell) && r.worklist[0] != a
    requires Proper(f, r) && Dated(f, r) && Going(r, w, a, d)
    ensures Pending(q, w, a, d) || Going(q, w, a, d)
  {
    hide AllCells, NewContext, Graph.Pushed, Graph.Valid, Held, Born, Clear, One, Proper, Dated;
    AroundFacts(f, w, a, d);
    var (b, e, c) := (r.worklist[0], w[|w| - 1], d.cell);
    InTail(r.worklist, a);
    if b == w[0] || !(Held(r, a, c) !! Held(q, b, c)) { GoingHolder(f, r, q, w, a, d); }
    if b == e {
      EndPushes(f, r, q, w, a, d);
    } else {
      assert a !in f.graph.psTable[b].succ;
    }
  }

  lemma TurningStep(f: Problem, r: Run, w: seq<nat>, a: nat, d: Site)
    requires LoopAround(f, w, a, d) && Turning(f, r, w, a, d)
    ensures r.worklist != [] && Turning(f, Advance(f, r), w, a, d)
  {
    hide AllCells, LoopAround, Advance, Dated, Chain, Pending, Fresh, Going, StepInCell, Proper, Graph.Valid;
    AroundValid(f, w, a, d);
    TurningWaits(f, r, w, a, d);
    var q := Advance(f, r);
    StepsInCell(f, r, d.cell);
    StepDated(f, r);
    ChainStep(f, r, q, w, a, d);
    if r.worklist[0] == a {
      NotWaiting(r, w, a, d);
      VisitA(f, r, q, w, a, d);
    } else if Pending(r, w, a, d) {
      PendingStep(f, r, q, w, a, d);
    } else if Fresh(r, w, a, d) {
      FreshStep(f, r, q, w, a, d);
    } else {
      GoingStep(f, r, q, w, a, d);
    }
  }

  lemma AroundValid(f: Problem, w: seq<nat>, a: nat, d: Site)
    requires LoopAround(f, w, a, d)
    ensures f.Valid() && 0 < |w| && d.cell in AllCells()
  {
    BornCell(f, d);
  }

  lemma NotWaiting(r: Run, w: seq<nat>, a: nat, d: Site)
    requires 0 < |w| && r.worklist != [] && r.worklist[0] == a
    ensures !Fresh(r, w, a, d) && !Going(r, w, a, d)
  {
  }

  /** At first nobody holds anything. */
  lemma StartTurning(f: Problem, worklist: seq<nat>, w: seq<nat>, a: nat, d: Site)
    requires Proper(f, Initial(f, worklist)) && a in worklist && 0 < |w|
    ensures Turning(f, Initial(f, worklist), w, a, d)
  {
    hide AllCells, CellSet, Graph.Valid;
    var r := Initial(f, worklist);
    forall k, c
      ensures Held(r, k, c) == {}
    {
    }
  }

  lemma {:induction false} KeepsTurning(f: Problem, worklist: seq<nat>, w: seq<nat>, a: nat, d: Site, n: nat)
    requires Proper(f, Initial(f, worklist)) && a in worklist && LoopAround(f, w, a, d)
    ensures 0 < |w| && Turning(f, After(f, Initial(f, worklist), n), w, a, d)
    decreases n
  {
    hide AllCells, LoopAround, Turning, Advance, Initial, Proper;
    AroundValid(f, w, a, d);
    if n == 0 {
      StartTurning(f, worklist, w, a, d);
    } else {
      KeepsTurning(f, worklist, w, a, d, n - 1);
      TurningStep(f, After(f, Initial(f, worklist), n - 1), w, a, d);
    }
  }

  /** Counting nodes, the run on such a function never ends, in whatever order the blocks are first listed. */
  lemma LoopNeverEnds(f: Problem, worklist: seq<nat>, w: seq<nat>, a: nat, d: Site, n: nat)
    requires Proper(f, Initial(f, worklist)) && a in worklist && LoopAround(f, w, a, d)
    ensures After(f, Initial(f, worklist), n).worklist != []
  {
    hide AllCells, LoopAround, Turning, After, Initial, Proper;
    KeepsTurning(f, worklist, w, a, d, n);
    TurningStep(f, After(f, Initial(f, worklist), n), w, a, d);
  }

  // ---- One block in the loop ----

  /** Block `l` branches to itself or goes on to `a`, which is reached only from `l`, goes back to `l`, and defines a
      cell that `l` passes through: a loop around a one-block loop. */
  ghost predicate NestedLoop(f: Problem, l: nat, a: nat, d: Site) {
    && f.Valid() && f.graph.Internal(l) && f.graph.Internal(a) && l != a
    && f.graph.psTable[l].succ == [l, a]
    && l in f.graph.psTable[a].succ
    && (forall p :: p in f.graph.psTable[a].pred ==> p == l)
    && Clear(f, l, f.Start(l), f.Stop(l), d.cell)
    && d.block == a && Born(f, d)
  }

  lemma NestedLoopNeverEnds(f: Problem, worklist: seq<nat>, l: nat, a: nat, d: Site, n: nat)
    requires Proper(f, Initial(f, worklist)) && a in worklist && NestedLoop(f, l, a, d)
    ensures After(f, Initial(f, worklist), n).worklist != []
  {
    hide AllCells, Clear, Born, Graph.Valid, Initial, After, Proper;
    assert Passing(f, l, d.cell);
    LoopNeverEnds(f, worklist, [l], a, d, n);
  }
}
