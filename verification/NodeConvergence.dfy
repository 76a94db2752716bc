/** When the run that counts nodes ends with everything found, loops included. */
module NodeConvergence {
  import opened Wrappers
  import opened MachineCode
  import opened ControlFlowGraphs
  import opened FlowContexts
  import opened ReachingDefinitions
  import opened ChaoticIteration
  import DI = DataFlowInvariants
  import opened NodeCounting

  // ---- The conditions ----

  /** The block at place `i` of the first listing has no predecessors but blocks listed before it that have none but
      such, and so on.  It is visited once. */
  ghost predicate OnceAt(f: Problem, w: seq<nat>, i: nat)
    requires f.Valid() && f.graph.Distinct(w) && i < |w|
    decreases i
  {
    w[i] < |f.graph.psTable|
    && forall p :: p in f.graph.psTable[w[i]].pred ==> exists j :: 0 <= j < i && w[j] == p && OnceAt(f, w, j)
  }

  ghost predicate Once(f: Problem, w: seq<nat>, b: nat)
    requires f.Valid() && f.graph.Distinct(w)
  {
    exists i :: 0 <= i < |w| && w[i] == b && OnceAt(f, w, i)
  }

  /** No definition comes to a block that passes the cell on over two edges, unless its own block is visited once. */
  ghost predicate OneWay(f: Problem, w: seq<nat>, c: Cell)
    requires f.Valid() && f.graph.Distinct(w)
  {
    forall b, p, q, d ::
      PassesOn(f, b, c) && Brings(f, p, b, c, d) && Brings(f, q, b, c, d) ==> p == q || Once(f, w, d.block)
  }

  ghost predicate PassesOn(f: Problem, b: nat, c: Cell)
    requires f.Valid()
  {
    f.graph.Internal(b) && Clear(f, b, f.Start(b), f.Stop(b), c)
  }

  /** The definition reaches the end of the predecessor. */
  ghost predicate Brings(f: Problem, p: nat, b: nat, c: Cell, d: Site)
    requires f.Valid()
  {
    b < |f.graph.psTable| && p in f.graph.psTable[b].pred && f.graph.Internal(p) && d.cell == c && Reaches(f, d, p)
  }

  /** At most one definition of the cell reaches the end of each block. */
  ghost predicate Few(f: Problem, c: Cell)
    requires f.Valid()
  {
    forall b, d, e :: ReachEnd(f, b, c, d) && ReachEnd(f, b, c, e) ==> d == e
  }

  ghost predicate ReachEnd(f: Problem, b: nat, c: Cell, d: Site)
    requires f.Valid()
  {
    f.graph.Internal(b) && d.cell == c && Reaches(f, d, b)
  }

  /** Under this condition the run ends, ... */
  ghost predicate AllOneWay(f: Problem, w: seq<nat>)
    requires f.Valid() && f.graph.Distinct(w)
  {
    forall c :: c in AllCells() ==> OneWay(f, w, c)
  }

  /** ... and under this one it has found everything when it ends. */
  ghost predicate Noticed(f: Problem, w: seq<nat>)
    requires f.Valid() && f.graph.Distinct(w)
  {
    forall c :: c in AllCells() ==> OneWay(f, w, c) || Few(f, c)
  }

  // ---- Blocks that are visited once ----

  /** The worklist is some blocks in front of the rest of the first listing, and blocks visited once are not in it
      again. */
  ghost predicate Listed(f: Problem, w: seq<nat>, k: nat, worklist: seq<nat>)
    requires f.Valid() && f.graph.Distinct(w)
  {
    && k <= |w| && |w| - k <= |worklist| && worklist[|worklist| - (|w| - k)..] == w[k..]
    && forall i :: 0 <= i < k && OnceAt(f, w, i) ==> w[i] !in worklist
  }

  /** The next block is the next of the listing, or one that may come again. */
  lemma HeadOf(f: Problem, w: seq<nat>, k: nat, worklist: seq<nat>)
    requires f.Valid() && f.graph.Distinct(w) && f.graph.Distinct(worklist) && Listed(f, w, k, worklist)
    requires worklist != []
    ensures if |worklist| == |w| - k then k < |w| && worklist[0] == w[k] && worklist[1..] == w[k + 1..]
            else !Once(f, w, worklist[0])
  {
    hide Graph.Dual, Graph.UniqueStarts, Graph.OutsideIsLeaf, OnceAt;
    var n := |w| - k;
    if |worklist| == n {
      assert worklist == w[k..];
    } else {
      forall i | k <= i < |w|
        ensures w[i] != worklist[0]
      {
        assert worklist[|worklist| - n..][i - k] == w[k..][i - k];
      }
    }
  }

  /** A block that is visited once is not a successor of one that is visited later or again. */
  lemma OnceNotPushed(f: Problem, w: seq<nat>, b: nat, i: nat)
    requires f.Valid() && f.graph.Distinct(w) && i < |w| && OnceAt(f, w, i) && f.graph.Internal(b)
    requires w[i] in f.graph.psTable[b].succ
    ensures exists j :: 0 <= j < i && w[j] == b && OnceAt(f, w, j)
  {
    hide Graph.Dual, Graph.UniqueStarts, Graph.OutsideIsLeaf;
    f.graph.EdgeBothWays(b, w[i]);
  }

  lemma StepListed(f: Problem, w: seq<nat>, k: nat, r: Run)
    requires Proper(f, r) && f.graph.Distinct(w) && Listed(f, w, k, r.worklist) && r.worklist != []
    ensures var k' := if |r.worklist| == |w| - k then k + 1 else k;
      Listed(f, w, k', Advance(f, r).worklist)
  {
    hide AllCells, OnceAt, NewContext, Graph.Pushed, TotalOuts, Advance, Graph.Dual, Graph.UniqueStarts,
         Graph.OutsideIsLeaf;
    StepKeepsLists(f, r);
    HeadOf(f, w, k, r.worklist);
    var (b, tail, wl) := (r.worklist[0], r.worklist[1..], Advance(f, r).worklist);
    var k' := if |r.worklist| == |w| - k then k + 1 else k;
    var n := |w| - k';
    assert tail[|tail| - n..] == w[k'..];
    assert wl[|wl| - n..] == wl[|wl| - |tail|..][|tail| - n..];
    forall i | 0 <= i < k' && OnceAt(f, w, i)
      ensures w[i] !in wl
    {
      if w[i] in f.graph.psTable[b].succ {
        OnceNotPushed(f, w, b, i);
      }
    }
  }

  // ---- One node per definition ----

  ghost predicate Alive(out: seq<Context<Def>>, d: Def) {
    exists m, c :: 0 <= m < |out| && c in out[m] && d in out[m][c]
  }

  /** Of a block that is visited once there are nodes of one visit, and none before it. */
  ghost predicate OnceStamped(f: Problem, w: seq<nat>, k: nat, out: seq<Context<Def>>)
    requires f.Valid() && f.graph.Distinct(w)
  {
    forall i, d :: 0 <= i < |w| && OnceAt(f, w, i) && Alive(out, d) && d.site.block == w[i] ==>
      i < k && forall e :: Alive(out, e) && e.site.block == w[i] ==> d.visit == e.visit
  }

  /** No block has two nodes of one definition in the cell. */
  ghost predicate SingleDefs(out: seq<Context<Def>>, c: Cell) {
    forall m, d, e :: 0 <= m < |out| && c in out[m] && d in out[m][c] && e in out[m][c] && d.site == e.site ==> d == e
  }

  lemma VisitAlive(f: Problem, out: seq<Context<Def>>, b: nat, visit: nat, d: Def)
    requires f.Valid() && TotalOuts(f, out) && f.graph.Internal(b)
    requires Alive(out[b := NewContext(f, out, b, visit)], d)
    ensures Alive(out, d) || (d.site.block == b && d.visit == visit)
  {
    hide AllCells, ThroughNew, Graph.Dual, Graph.UniqueStarts, Graph.OutsideIsLeaf;
    var out' := out[b := NewContext(f, out, b, visit)];
    var m, c :| 0 <= m < |out'| && c in out'[m] && d in out'[m][c];
    if m != b {
      assert d in out[m][c];
    } else {
      ThroughOrigin(f, b, f.Stop(b), c, InNew(f, out, b, c), visit);
      if d in InNew(f, out, b, c) {
        var p :| p in f.graph.psTable[b].pred && p < |out| && d in out[p][c];
        assert d in out[p][c];
      }
    }
  }

  lemma StepStamped(f: Problem, w: seq<nat>, k: nat, r: Run)
    requires Proper(f, r) && f.graph.Distinct(w) && Listed(f, w, k, r.worklist) && r.worklist != []
    requires OnceStamped(f, w, k, r.out)
    ensures OnceStamped(f, w, if |r.worklist| == |w| - k then k + 1 else k, Advance(f, r).out)
  {
    hide AllCells, OnceAt, NewContext, Alive, Graph.Pushed, Listed, Graph.Dual, Graph.UniqueStarts, Graph.OutsideIsLeaf;
    HeadOf(f, w, k, r.worklist);
    var b := r.worklist[0];
    forall d | Alive(Advance(f, r).out, d)
      ensures Alive(r.out, d) || (d.site.block == b && d.visit == r.visits + 1)
    {
      VisitAlive(f, r.out, b, r.visits + 1, d);
    }
  }

  /** The nodes of one definition that come to a block over different edges are the same. */
  lemma VisitSingle(f: Problem, w: seq<nat>, k: nat, out: seq<Context<Def>>, b: nat, visit: nat, c: Cell)
    requires f.Valid() && f.graph.Distinct(w) && TotalOuts(f, out) && f.graph.Internal(b) && c in AllCells()
    requires Leq(OutSites(out), PathOuts(f)) && OnceStamped(f, w, k, out) && OneWay(f, w, c) && SingleDefs(out, c)
    ensures SingleDefs(out[b := NewContext(f, out, b, visit)], c)
  {
    hide AllCells, OnceAt, OnceStamped, OneWay, ThroughNew, Graph.Dual, Graph.UniqueStarts, Graph.OutsideIsLeaf;
    var given := InNew(f, out, b, c);
    var made := NewContext(f, out, b, visit)[c];
    forall d, e | d in made && e in made && d.site == e.site
      ensures d == e
    {
      if Clear(f, b, f.Start(b), f.Stop(b), c) {
        ThroughClear(f, b, f.Stop(b), c, given, visit);
        var p :| p in f.graph.psTable[b].pred && p < |out| && d in out[p][c];
        var q :| q in f.graph.psTable[b].pred && q < |out| && e in out[q][c];
        HeldBrings(f, out, p, b, c, d);
        HeldBrings(f, out, q, b, c, e);
        SameOrOnce(f, w, k, out, b, p, q, c, d, e);
      } else {
        ThroughRecent(f, b, f.Stop(b), c, given, visit);
      }
    }
  }

  lemma HeldReaches(f: Problem, out: seq<Context<Def>>, p: nat, c: Cell, d: Def)
    requires f.Valid() && TotalOuts(f, out) && c in AllCells() && Leq(OutSites(out), PathOuts(f))
    requires p < |out| && d in out[p][c]
    ensures ReachEnd(f, p, c, d.site)
  {
    hide AllCells, Reaches, Graph.Valid;
    var s := OutSites(out);
    assert d.site in s[p][c];
    assert Within(s[p], PathOuts(f)[p]);
    InReaching(f, p, c, d.site);
  }

  lemma HeldBrings(f: Problem, out: seq<Context<Def>>, p: nat, b: nat, c: Cell, d: Def)
    requires f.Valid() && TotalOuts(f, out) && c in AllCells() && Leq(OutSites(out), PathOuts(f))
    requires b < |f.graph.psTable| && p in f.graph.psTable[b].pred && p < |out| && d in out[p][c]
    ensures Brings(f, p, b, c, d.site) && Alive(out, d)
  {
    hide AllCells, Reaches, Graph.Valid, Leq, PathOuts;
    HeldReaches(f, out, p, c, d);
  }

  lemma SameOrOnce(f: Problem, w: seq<nat>, k: nat, out: seq<Context<Def>>, b: nat, p: nat, q: nat,
                   c: Cell, d: Def, e: Def)
    requires f.Valid() && f.graph.Distinct(w) && OnceStamped(f, w, k, out) && OneWay(f, w, c) && SingleDefs(out, c)
    requires PassesOn(f, b, c) && Brings(f, p, b, c, d.site) && Brings(f, q, b, c, e.site) && d.site == e.site
    requires Alive(out, d) && Alive(out, e) && p < |out| && q < |out|
    requires c in out[p] && c in out[q] && d in out[p][c] && e in out[q][c]
    ensures d == e
  {
    hide AllCells, OnceAt, PassesOn, Brings, Alive, Graph.Valid, Graph.Distinct;
    if p != q {
      assert Once(f, w, d.site.block);
      var i :| 0 <= i < |w| && w[i] == d.site.block && OnceAt(f, w, i);
      assert d.visit == e.visit;
    }
  }

  /** Holds in every state of the run. */
  ghost predicate Tracked(f: Problem, w: seq<nat>, k: nat, r: Run) {
    && Proper(f, r) && f.graph.Distinct(w) && Growing(f, OutSites(r.out))
    && Listed(f, w, k, r.worklist) && OnceStamped(f, w, k, r.out)
    && forall c :: c in AllCells() && OneWay(f, w, c) ==> SingleDefs(r.out, c)
  }

  lemma StepTracked(f: Problem, w: seq<nat>, k: nat, r: Run)
    requires Tracked(f, w, k, r) && r.worklist != []
    ensures Tracked(f, w, if |r.worklist| == |w| - k then k + 1 else k, Advance(f, r))
  {
    hide AllCells, OnceAt, OnceStamped, OneWay, SingleDefs, Listed, NewContext, Growing, Leq, PathOuts, OutSites,
         OthersSolved, LeastFixpoint, Advance, StepLists, Graph.Valid;
    StepProper(f, r);
    StepSites(f, r);
    StepListed(f, w, k, r);
    StepStamped(f, w, k, r);
    GrowingBelow(f, OutSites(r.out));
    forall c | c in AllCells() && OneWay(f, w, c)
      ensures SingleDefs(Advance(f, r).out, c)
    {
      StepFacts(f, r, c);
      VisitSingle(f, w, k, r.out, r.worklist[0], r.visits + 1, c);
    }
  }

  lemma StartTracked(f: Problem, w: seq<nat>)
    requires f.Valid() && f.graph.Distinct(w)
    ensures Tracked(f, w, 0, Initial(f, w))
  {
    hide AllCells, CellSet, OnceAt, OneWay, Growing, OthersSolved, LeastFixpoint, Leq, PathOuts, OutSites, Graph.Valid,
         Graph.Distinct, TotalOuts;
    InitialProper(f, w);
    CountedRunsAreSound(f, w, 0);
    assert After(f, Initial(f, w), 0) == Initial(f, w);
    assert w[0..] == w;
    NothingAlive(f, w);
  }

  lemma NothingAlive(f: Problem, w: seq<nat>)
    ensures var out := Initial(f, w).out;
      (forall m, c :: 0 <= m < |out| && c in out[m] ==> out[m][c] == {}) && forall d :: !Alive(out, d)
  {
    hide AllCells, CellSet;
  }

  lemma {:induction false} AfterTracked(f: Problem, w: seq<nat>, n: nat) returns (k: nat)
    requires f.Valid() && f.graph.Distinct(w)
    ensures Proper(f, Initial(f, w)) && Tracked(f, w, k, After(f, Initial(f, w), n))
    decreases n
  {
    hide AllCells, Tracked, Graph.Valid, Advance, Initial;
    StartTracked(f, w);
    TrackedProper(f, w, 0, Initial(f, w));
    if n == 0 {
      k := 0;
    } else {
      k := AfterTracked(f, w, n - 1);
      var r := After(f, Initial(f, w), n - 1);
      if r.worklist != [] {
        StepTracked(f, w, k, r);
        k := if |r.worklist| == |w| - k then k + 1 else k;
      } else {
        EmptyStays(f, r);
      }
    }
  }

  lemma TrackedProper(f: Problem, w: seq<nat>, k: nat, r: Run)
    requires Tracked(f, w, k, r)
    ensures f.Valid() && f.graph.Distinct(w)
    ensures Proper(f, r) && TotalOuts(f, r.out) && Growing(f, OutSites(r.out))
  {
    hide AllCells, Growing, Graph.Valid;
  }

  // ---- Counting nodes notices what counting sites does ----

  lemma {:induction false} AsManySites(s: set<Def>)
    requires forall d, e :: d in s && e in s && d.site == e.site ==> d == e
    ensures |SitesOf(s)| == |s|
    decreases |s|
  {
    if s != {} {
      var d :| d in s;
      var rest := s - {d};
      AsManySites(rest);
      assert SitesOf(s) == SitesOf(rest) + {d.site};
      assert d.site !in SitesOf(rest);
    }
  }

  /** If the sites of one cell change, so does its number of nodes. */
  lemma CellNoticed(f: Problem, w: seq<nat>, k: nat, r: Run, c: Cell)
    requires Tracked(f, w, k, r) && r.worklist != [] && c in AllCells() && (OneWay(f, w, c) || Few(f, c))
    ensures var (b, q) := (r.worklist[0], Advance(f, r));
      b < |r.out| && b < |q.out| && c in r.out[b] && c in q.out[b]
      && (SitesOf(r.out[b][c]) != SitesOf(q.out[b][c]) ==> |r.out[b][c]| != |q.out[b][c]|)
  {
    hide AllCells, OnceAt, OnceStamped, OneWay, Few, Listed, Growing, NewContext, Advance, StepLists, Proper,
         Graph.Valid;
    TrackedProper(f, w, k, r);
    StepFacts(f, r, c);
    StepTracked(f, w, k, r);
    var (b, q) := (r.worklist[0], Advance(f, r));
    StepWithin(f, r, c);
    if OneWay(f, w, c) {
      AsManySites(r.out[b][c]);
      AsManySites(q.out[b][c]);
      SubsetSize(SitesOf(r.out[b][c]), SitesOf(q.out[b][c]));
    } else if SitesOf(r.out[b][c]) != SitesOf(q.out[b][c]) {
      TrackedProper(f, w, if |r.worklist| == |w| - k then k + 1 else k, q);
      FewSites(f, q.out, b, c);
      FirstSite(r.out[b][c], q.out[b][c]);
    }
  }

  lemma StepWithin(f: Problem, r: Run, c: Cell)
    requires Proper(f, r) && Growing(f, OutSites(r.out)) && r.worklist != [] && c in AllCells()
    ensures var (b, q) := (r.worklist[0], Advance(f, r));
      b < |r.out| && b < |q.out| && c in r.out[b] && c in q.out[b] && SitesOf(r.out[b][c]) <= SitesOf(q.out[b][c])
  {
    hide AllCells, Growing, NewContext, Visited, Graph.Valid, Graph.Pushed;
    StepFacts(f, r, c);
    var (b, q) := (r.worklist[0], Advance(f, r));
    VisitSites(f, r.out, b, r.visits + 1);
    VisitGrows(f, OutSites(r.out), b);
    assert Within(OutSites(r.out)[b], OutSites(q.out)[b]);
    assert OutSites(r.out)[b][c] == SitesOf(r.out[b][c]) && OutSites(q.out)[b][c] == SitesOf(q.out[b][c]);
  }

  lemma FewSites(f: Problem, out: seq<Context<Def>>, b: nat, c: Cell)
    requires f.Valid() && TotalOuts(f, out) && Growing(f, OutSites(out)) && f.graph.Internal(b) && c in AllCells()
    requires Few(f, c)
    ensures forall d, e :: d in out[b][c] && e in out[b][c] ==> d.site == e.site
  {
    hide AllCells, Reaches, Growing, Graph.Valid, PathOuts, Leq, OutSites, OthersSolved, LeastFixpoint, ReachEnd;
    GrowingBelow(f, OutSites(out));
    forall d | d in out[b][c]
      ensures ReachEnd(f, b, c, d.site)
    {
      HeldReaches(f, out, b, c, d);
    }
  }

  lemma FirstSite(s: set<Def>, t: set<Def>)
    requires SitesOf(s) < SitesOf(t) && forall d, e :: d in t && e in t ==> d.site == e.site
    ensures s == {} && t != {}
  {
    var x :| x in SitesOf(t) && x !in SitesOf(s);
    forall d | d in s
      ensures d.site in SitesOf(s)
    {
    }
  }

  /** If the sites change, the successors are made to wait. */
  lemma StepNoticed(f: Problem, w: seq<nat>, k: nat, r: Run)
    requires Tracked(f, w, k, r) && Noticed(f, w) && r.worklist != []
    ensures var (b, tail, q) := (r.worklist[0], r.worklist[1..], Advance(f, r));
      && f.graph.Internal(b) && b < |f.graph.psTable| && Shaped(f, OutSites(r.out))
      && OutSites(q.out) == Visited(f, OutSites(r.out), b)
      && (OutSites(q.out) != OutSites(r.out) ==> q.worklist == f.graph.Pushed(tail, f.graph.psTable[b].succ))
  {
    hide AllCells, CellSet, OneWay, Few, Tracked, Advance, NewContext, Growing, StepLists, Graph.Pushed, TotalOuts,
         Graph.Valid, Graph.Distinct;
    TrackedProper(f, w, k, r);
    StepVisits(f, r);
    var (b, q) := (r.worklist[0], Advance(f, r));
    if c :| c in AllCells() && SitesChange(r, q, b, c) {
      CellNoticed(f, w, k, r, c);
      StepFacts(f, r, c);
    } else {
      NoSiteChanges(f, r);
    }
  }

  ghost predicate SitesChange(r: Run, q: Run, b: nat, c: Cell) {
    b < |r.out| && b < |q.out| && c in r.out[b] && c in q.out[b] && SitesOf(r.out[b][c]) != SitesOf(q.out[b][c])
  }

  lemma StepVisits(f: Problem, r: Run)
    requires Proper(f, r) && r.worklist != []
    ensures var b := r.worklist[0];
      && f.Valid() && f.graph.Internal(b) && b < |f.graph.psTable| && TotalOuts(f, r.out)
      && Shaped(f, OutSites(r.out)) && OutSites(Advance(f, r).out) == Visited(f, OutSites(r.out), b)
  {
    hide AllCells, NewContext, Graph.Pushed, Visited, Graph.Dual, Graph.UniqueStarts, Graph.OutsideIsLeaf;
    VisitSites(f, r.out, r.worklist[0], r.visits + 1);
  }

  lemma NoSiteChanges(f: Problem, r: Run)
    requires Proper(f, r) && r.worklist != []
    requires forall c :: c in AllCells() ==> !SitesChange(r, Advance(f, r), r.worklist[0], c)
    ensures OutSites(Advance(f, r).out) == OutSites(r.out)
  {
    hide AllCells, NewContext, Graph.Pushed, Graph.Dual, Graph.UniqueStarts, Graph.OutsideIsLeaf;
    var (b, q) := (r.worklist[0], Advance(f, r));
    assert Total(r.out[b]) && Total(q.out[b]);
    assert OutSites(q.out)[b] == OutSites(r.out)[b] by {
      forall c | c in AllCells()
        ensures OutSites(q.out)[b][c] == OutSites(r.out)[b][c]
      {
        assert !SitesChange(r, q, b, c);
      }
    }
  }

  /** If every definition comes one way, the successors are made to wait only then. */
  lemma StepCounted(f: Problem, w: seq<nat>, k: nat, r: Run)
    requires Tracked(f, w, k, r) && AllOneWay(f, w) && r.worklist != []
    ensures OutSites(Advance(f, r).out) == OutSites(r.out) ==> Advance(f, r).worklist == r.worklist[1..]
  {
    hide AllCells, CellSet, OneWay, NewContext, Growing, Listed, OnceStamped, Graph.Pushed, Graph.Valid, Graph.Distinct;
    StepTracked(f, w, k, r);
    StepVisits(f, r);
    var (b, q) := (r.worklist[0], Advance(f, r));
    assert Total(r.out[b]) && Total(q.out[b]) by { TotalAt(f, r, b); TotalAt(f, q, b); }
    if OutSites(q.out) == OutSites(r.out) {
      forall c | c in AllCells()
        ensures |r.out[b][c]| == |q.out[b][c]|
      {
        AsManySites(r.out[b][c]);
        AsManySites(q.out[b][c]);
        assert OutSites(r.out)[b][c] == OutSites(q.out)[b][c];
      }
      assert Sizes(r.out[b]) == Sizes(q.out[b]);
    }
  }

  lemma TotalAt(f: Problem, r: Run, b: nat)
    requires Proper(f, r) && b < |f.graph.blocks|
    ensures b < |r.out| && Total(r.out[b])
  {
  }

  // ---- Whole runs ----

  ghost predicate ListsAll(f: Problem, w: seq<nat>) {
    f.graph.Distinct(w) && forall b :: f.graph.Internal(b) ==> b in w
  }

  /** Every block that is not waiting satisfies its equation. */
  lemma {:induction false} RunSolves(f: Problem, w: seq<nat>, n: nat)
    requires f.Valid() && ListsAll(f, w) && Noticed(f, w)
    ensures Proper(f, Initial(f, w))
    ensures var r := After(f, Initial(f, w), n);
      Shaped(f, OutSites(r.out)) && OthersSolved(f, OutSites(r.out), Members(r.worklist))
    decreases n
  {
    hide AllCells, Noticed, Tracked, Advance, OthersSolved, Visited, Growing, Graph.Valid, Graph.Distinct, TotalOuts;
    InitialProper(f, w);
    var k := AfterTracked(f, w, n);
    OutSitesShaped(f, After(f, Initial(f, w), n).out) by { TrackedProper(f, w, k, After(f, Initial(f, w), n)); }
    if n == 0 {
      NobodySolved(f, w);
    } else {
      RunSolves(f, w, n - 1);
      var r := After(f, Initial(f, w), n - 1);
      if r.worklist != [] { SolvedStep(f, w, n - 1); } else { EmptyStays(f, r); }
    }
  }

  lemma NobodySolved(f: Problem, w: seq<nat>)
    requires f.Valid() && ListsAll(f, w) && Shaped(f, OutSites(Initial(f, w).out))
    ensures OthersSolved(f, OutSites(Initial(f, w).out), Members(w))
  {
    hide AllCells;
  }

  lemma SolvedStep(f: Problem, w: seq<nat>, n: nat)
    requires f.Valid() && f.graph.Distinct(w) && Noticed(f, w) && Proper(f, Initial(f, w))
    requires var r := After(f, Initial(f, w), n);
      r.worklist != [] && Shaped(f, OutSites(r.out)) && OthersSolved(f, OutSites(r.out), Members(r.worklist))
    ensures var q := Advance(f, After(f, Initial(f, w), n));
      Shaped(f, OutSites(q.out)) && OthersSolved(f, OutSites(q.out), Members(q.worklist))
  {
    hide AllCells, Noticed, Tracked, Advance, OthersSolved, Visited, Growing, Graph.Valid, Graph.Distinct, TotalOuts,
         After, Initial, Graph.Pushed;
    var k := AfterTracked(f, w, n);
    var r := After(f, Initial(f, w), n);
    TrackedProper(f, w, k, r);
    StepNoticed(f, w, k, r);
    StepKeepsLists(f, r);
    var q := Advance(f, r);
    assert Members(r.worklist) - {r.worklist[0]} <= Members(q.worklist);
    VisitSolves(f, OutSites(r.out), r.worklist[0], Members(r.worklist), Members(q.worklist));
  }

  /** When such a run ends, it has found everything. */
  lemma EndsRight(f: Problem, w: seq<nat>, n: nat)
    requires f.Valid() && ListsAll(f, w) && Noticed(f, w)
    requires Proper(f, Initial(f, w)) && After(f, Initial(f, w), n).worklist == []
    ensures LeastFixpoint(f, OutSites(After(f, Initial(f, w), n).out))
  {
    hide AllCells, Noticed, OthersSolved, LeastFixpoint, Growing, Graph.Valid, After, Initial, Proper, ListsAll;
    RunSolves(f, w, n);
    assert Members([]) == {};
    CountedRunsAreSound(f, w, n);
  }

  /** If every definition comes one way, the run ends. */
  lemma {:induction false} Ends(f: Problem, w: seq<nat>, n: nat) returns (m: nat)
    requires f.Valid() && f.graph.Distinct(w) && AllOneWay(f, w)
    requires Proper(f, Initial(f, w)) && Shaped(f, OutSites(After(f, Initial(f, w), n).out))
    ensures After(f, Initial(f, w), m).worklist == []
    decreases Missing(f, OutSites(After(f, Initial(f, w), n).out)), |After(f, Initial(f, w), n).worklist|
  {
    hide AllCells, AllOneWay, Tracked, Advance, Visited, Growing, Missing, Graph.Valid, Graph.Distinct, TotalOuts,
         Initial, Noticed, OneWay;
    var r := After(f, Initial(f, w), n);
    if r.worklist == [] {
      m := n;
    } else {
      var k := AfterTracked(f, w, n);
      TrackedProper(f, w, k, r);
      OneWayNoticed(f, w);
      StepNoticed(f, w, k, r);
      StepCounted(f, w, k, r);
      assert Advance(f, r) == After(f, Initial(f, w), n + 1);
      if OutSites(Advance(f, r).out) != OutSites(r.out) {
        ChangeShrinksMissing(f, OutSites(r.out), r.worklist[0]);
      }
      m := Ends(f, w, n + 1);
    }
  }

  lemma OneWayNoticed(f: Problem, w: seq<nat>)
    requires f.Valid() && f.graph.Distinct(w) && AllOneWay(f, w)
    ensures Noticed(f, w)
  {
    hide OneWay, Few, Graph.Valid, Graph.Distinct;
  }

  /** The run ends with everything found, loops included. */
  lemma OneWayEndsRight(f: Problem, w: seq<nat>) returns (n: nat)
    requires f.Valid() && ListsAll(f, w) && AllOneWay(f, w)
    ensures Proper(f, Initial(f, w)) && After(f, Initial(f, w), n).worklist == []
    ensures LeastFixpoint(f, OutSites(After(f, Initial(f, w), n).out))
  {
    hide AllCells, AllOneWay, Noticed, LeastFixpoint, Growing, OthersSolved, Graph.Valid, Graph.Distinct, After,
         Initial;
    InitialProper(f, w);
    CountedRunsAreSound(f, w, 0);
    n := Ends(f, w, 0);
    OneWayNoticed(f, w);
    EndsRight(f, w, n);
  }

  // ---- Where the condition holds ----

  /** It holds of a register that is only defined in blocks visited once, loops or not. */
  lemma OnceDefinedOneWay(f: Problem, w: seq<nat>, c: Cell)
    requires f.Valid() && f.graph.Distinct(w)
    requires forall d :: Born(f, d) && d.cell == c ==> Once(f, w, d.block)
    ensures OneWay(f, w, c)
  {
    hide Graph.Valid, Graph.Distinct, Once, Clear;
    forall b, p, q, d | PassesOn(f, b, c) && Brings(f, p, b, c, d) && Brings(f, q, b, c, d)
      ensures Once(f, w, d.block)
    {
      var v :| Carries(f, d, v) && v[|v| - 1] == p;
    }
  }

  /** It holds if no edge goes against the first listing: then every block is visited once. */
  lemma {:induction false} ForwardOnce(f: Problem, w: seq<nat>, i: nat)
    requires f.Valid() && ListsAll(f, w) && i < |w|
    requires forall j, k :: 0 <= j < |w| && 0 <= k < |w| && w[k] in f.graph.psTable[w[j]].succ ==> j < k
    ensures OnceAt(f, w, i)
    decreases i
  {
    hide Graph.Dual, Graph.UniqueStarts;
    forall p | p in f.graph.psTable[w[i]].pred
      ensures exists j :: 0 <= j < i && w[j] == p && OnceAt(f, w, j)
    {
      f.graph.EdgeBothWays(p, w[i]);
      assert f.graph.Internal(p);
      var j :| 0 <= j < |w| && w[j] == p;
      ForwardOnce(f, w, j);
    }
  }

  // ---- What a block was given when it was last visited ----

  ghost function LastEntry(f: Problem, w: seq<nat>, n: nat, b: nat): Option<Context<Site>>
    requires f.Valid() && f.graph.Distinct(w) && f.graph.Internal(b)
  {
    if n == 0 then None
    else
      InitialProper(f, w);
      var r := After(f, Initial(f, w), n - 1);
      OutSitesShaped(f, r.out);
      if r.worklist != [] && r.worklist[0] == b then Some(DI.EntryContext(f, OutSites(r.out), b))
      else LastEntry(f, w, n - 1, b)
  }

  /** Never more than what reaches the block. */
  lemma {:induction false} LastEntryBelow(f: Problem, w: seq<nat>, n: nat, b: nat)
    requires f.Valid() && f.graph.Distinct(w) && f.graph.Internal(b) && LastEntry(f, w, n, b).Some?
    ensures Within(LastEntry(f, w, n, b).value, DI.EntryContext(f, PathOuts(f), b))
    decreases n
  {
    hide AllCells, DI.EntryContext, Growing, OthersSolved, LeastFixpoint, Leq, Within, PathOuts, Graph.Valid,
         Graph.Distinct,
         After, Initial;
    InitialProper(f, w);
    var r := After(f, Initial(f, w), n - 1);
    OutSitesShaped(f, r.out);
    if r.worklist != [] && r.worklist[0] == b {
      CountedRunsAreSound(f, w, n - 1);
      EntryMonotone(f, OutSites(r.out), PathOuts(f), b);
    } else {
      LastEntryBelow(f, w, n - 1, b);
    }
  }

  lemma EntryMonotone(f: Problem, x: Outs, y: Outs, b: nat)
    requires f.Valid() && Shaped(f, x) && Shaped(f, y) && Leq(x, y) && f.graph.Internal(b)
    ensures Within(DI.EntryContext(f, x, b), DI.EntryContext(f, y, b))
  {
    hide AllCells, Graph.Dual, Graph.UniqueStarts, Graph.OutsideIsLeaf;
    forall c, d | c in AllCells() && d in In(f, x, b, c)
      ensures d in In(f, y, b, c)
    {
      var p :| p in f.graph.psTable[b].pred && p < |x| && d in x[p][c];
      assert Within(x[p], y[p]);
      assert d in y[p][c];
    }
  }

  /** A block that is not waiting has been visited; if changes are noticed, it was then given what it would be now. */
  lemma {:induction false} LastEntryFresh(f: Problem, w: seq<nat>, n: nat, b: nat)
    requires f.Valid() && ListsAll(f, w) && f.graph.Internal(b)
    requires Proper(f, Initial(f, w)) && b !in After(f, Initial(f, w), n).worklist
    ensures Shaped(f, OutSites(After(f, Initial(f, w), n).out)) && LastEntry(f, w, n, b).Some?
    ensures Noticed(f, w) ==>
      LastEntry(f, w, n, b).value == DI.EntryContext(f, OutSites(After(f, Initial(f, w), n).out), b)
    decreases n
  {
    hide AllCells, DI.EntryContext, Noticed, Graph.Valid, Graph.Distinct, Advance, TotalOuts, Proper, OutSites, After,
         Initial, Shaped;
    AfterShaped(f, w, n);
    AfterUnfolds(f, w, n);
    assert n > 0;
    AfterShaped(f, w, n - 1);
    var r := After(f, Initial(f, w), n - 1);
    if r.worklist == [] {
      EmptyStays(f, r);
      LastEntryFresh(f, w, n - 1, b);
    } else {
      if r.worklist[0] != b {
        NotWaitingBefore(f, r, b);
        LastEntryFresh(f, w, n - 1, b);
      }
      if Noticed(f, w) { EntryUnchanged(f, w, n - 1, b); }
    }
  }

  lemma AfterUnfolds(f: Problem, w: seq<nat>, n: nat)
    requires Proper(f, Initial(f, w))
    ensures After(f, Initial(f, w), 0).worklist == w
    ensures n > 0 ==> After(f, Initial(f, w), n) == Advance(f, After(f, Initial(f, w), n - 1))
  {
  }

  lemma AfterShaped(f: Problem, w: seq<nat>, n: nat)
    requires f.Valid() && Proper(f, Initial(f, w))
    ensures Shaped(f, OutSites(After(f, Initial(f, w), n).out))
  {
    hide AllCells, After, Initial, OutSites, Graph.Valid, Graph.Distinct;
    OutSitesShaped(f, After(f, Initial(f, w), n).out);
  }

  lemma NotWaitingBefore(f: Problem, r: Run, b: nat)
    requires Proper(f, r) && r.worklist != [] && r.worklist[0] != b && b !in Advance(f, r).worklist
    ensures b !in r.worklist
  {
    hide AllCells, Proper, Advance, Graph.Pushed;
    StepKeepsLists(f, r);
    InTail(r.worklist, b);
  }

  /** The step does not change what comes to a block that is not waiting after it. */
  lemma EntryUnchanged(f: Problem, w: seq<nat>, n: nat, b: nat)
    requires f.Valid() && f.graph.Distinct(w) && Noticed(f, w) && f.graph.Internal(b) && Proper(f, Initial(f, w))
    requires var r := After(f, Initial(f, w), n); r.worklist != [] && b !in Advance(f, r).worklist
    ensures var r := After(f, Initial(f, w), n);
      && Shaped(f, OutSites(r.out)) && Shaped(f, OutSites(Advance(f, r).out))
      && DI.EntryContext(f, OutSites(Advance(f, r).out), b) == DI.EntryContext(f, OutSites(r.out), b)
  {
    hide AllCells, DI.EntryContext, Noticed, Tracked, Growing, Graph.Dual, Graph.UniqueStarts, Graph.OutsideIsLeaf,
         Graph.Distinct, Graph.Pushed, TotalOuts, Advance, RecomputedContext, OutSites, After, Initial;
    var k := AfterTracked(f, w, n);
    var r := After(f, Initial(f, w), n);
    TrackedProper(f, w, k, r);
    StepNoticed(f, w, k, r);
    var (x, y, h) := (OutSites(r.out), OutSites(Advance(f, r).out), r.worklist[0]);
    if x != y {
      f.graph.PushedMembers(r.worklist[1..], f.graph.psTable[h].succ);
      f.graph.EdgeBothWays(h, b);
      DI.EntrySame(f, x, y, b);
    }
  }
}
