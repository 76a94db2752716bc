/** Functions on which the run that counts nodes ends: those without loops; and on which it finds everything: those
    whose blocks are first listed in an order that no edge goes against. */
module LoopFreeRuns {
  import opened MachineCode
  import opened ControlFlowGraphs
  import opened FlowContexts
  import opened ReachingDefinitions
  import opened ChaoticIteration
  import opened NodeCounting
  import NV = NodeConvergence

  /** A numbering of the blocks that goes down along every edge. */
  ghost predicate Downhill(f: Problem, rank: seq<nat>) {
    && f.Valid() && |rank| == |f.graph.blocks|
    && (forall i, j :: f.graph.Internal(i) && f.graph.Internal(j) && j in f.graph.psTable[i].succ ==>
          rank[j] < rank[i])
    && (forall i, j :: f.graph.Internal(i) && f.graph.Internal(j) && rank[i] == rank[j] ==> i == j)
  }

  /** A non-empty path over internal blocks. */
  ghost predicate Leads(f: Problem, w: seq<nat>, i: nat, j: nat)
    requires f.Valid()
  {
    && 1 < |w| && w[0] == i && w[|w| - 1] == j
    && forall k :: 0 <= k < |w| - 1 ==> InnerStep(f, w[k], w[k + 1])
  }

  ghost predicate InnerStep(f: Problem, i: nat, j: nat)
    requires f.Valid()
  {
    f.graph.Internal(i) && f.graph.Internal(j) && j in f.graph.psTable[i].succ
  }

  /** There is no loop. */
  ghost predicate LoopFree(f: Problem)
    requires f.Valid()
  {
    forall i, w :: !Leads(f, w, i, i)
  }

  ghost predicate GoesTo(f: Problem, i: nat, j: nat)
    requires f.Valid()
  {
    i == j || exists w :: Leads(f, w, i, j)
  }

  ghost function From(f: Problem, i: nat): set<nat>
    requires f.Valid()
  {
    set j: nat | j < |f.graph.blocks| && GoesTo(f, i, j)
  }

  lemma StepThenGo(f: Problem, i: nat, j: nat, k: nat)
    requires f.Valid() && InnerStep(f, i, j) && GoesTo(f, j, k)
    ensures exists w :: Leads(f, w, i, k)
  {
    if j == k {
      assert Leads(f, [i, j], i, k);
    } else {
      var w :| Leads(f, w, j, k);
      var v := [i] + w;
      forall m | 0 <= m < |v| - 1
        ensures InnerStep(f, v[m], v[m + 1])
      {
        if m > 0 { assert v[m] == w[m - 1] && v[m + 1] == w[m]; }
      }
      assert Leads(f, v, i, k);
    }
  }

  /** Along an edge there is less to reach. */
  lemma FewerFrom(f: Problem, i: nat, j: nat)
    requires f.Valid() && LoopFree(f) && InnerStep(f, i, j)
    ensures |From(f, j)| < |From(f, i)|
  {
    hide Leads, Graph.Valid;
    forall k | k in From(f, j)
      ensures k in From(f, i)
    {
      StepThenGo(f, i, j, k);
    }
    if i in From(f, j) { StepThenGo(f, i, j, i); }
    assert i in From(f, i);
    SubsetSize(From(f, j), From(f, i));
    assert From(f, j) != From(f, i);
  }

  function Numbered(reach: nat, n: nat, b: nat): nat { reach * n + b }

  lemma NumberedOrder(r: nat, s: nat, n: nat, a: nat, b: nat)
    requires a < n && b < n
    ensures r < s ==> Numbered(r, n, a) < Numbered(s, n, b)
    ensures Numbered(r, n, a) == Numbered(s, n, b) ==> a == b
  {
    if r < s {
      assert (r + 1) * n <= s * n;
    } else if s < r {
      assert (s + 1) * n <= r * n;
    }
  }

  lemma {:induction false} DownhillLoses(f: Problem, rank: seq<nat>, w: seq<nat>, i: nat, j: nat)
    requires Downhill(f, rank) && Leads(f, w, i, j) && i < |rank| && j < |rank|
    ensures rank[j] < rank[i]
    decreases |w|
  {
    hide Graph.Valid;
    assert InnerStep(f, w[0], w[1]);
    if |w| > 2 {
      var v := w[1..];
      forall k | 0 <= k < |v| - 1
        ensures InnerStep(f, v[k], v[k + 1])
      {
        assert InnerStep(f, w[k + 1], w[k + 2]);
      }
      DownhillLoses(f, rank, v, w[1], j);
    }
  }

  /** The numbering exists exactly if there is no loop. */
  lemma LoopFreeIffDownhill(f: Problem)
    requires f.Valid()
    ensures LoopFree(f) <==> exists rank :: Downhill(f, rank)
  {
    hide Graph.Valid, Leads, From;
    if LoopFree(f) {
      var n := |f.graph.blocks|;
      var rank := seq(n, b requires 0 <= b < n => Numbered(|From(f, b)|, n, b));
      forall i, j | f.graph.Internal(i) && f.graph.Internal(j)
        ensures InnerStep(f, i, j) ==> rank[j] < rank[i]
        ensures rank[i] == rank[j] ==> i == j
      {
        if InnerStep(f, i, j) { FewerFrom(f, i, j); }
        NumberedOrder(|From(f, j)|, |From(f, i)|, n, j, i);
      }
      RankDown(f, rank);
    }
    if rank :| Downhill(f, rank) {
      forall i, w | Leads(f, w, i, i)
        ensures false
      {
        LeadsInside(f, w, i);
        DownhillLoses(f, rank, w, i, i);
      }
    }
  }

  lemma LeadsInside(f: Problem, w: seq<nat>, i: nat)
    requires f.Valid() && Leads(f, w, i, i)
    ensures i < |f.graph.blocks|
  {
    assert InnerStep(f, w[0], w[1]);
  }

  lemma RankDown(f: Problem, rank: seq<nat>)
    requires f.Valid() && |rank| == |f.graph.blocks|
    requires forall i, j :: f.graph.Internal(i) && f.graph.Internal(j) ==>
      (InnerStep(f, i, j) ==> rank[j] < rank[i]) && (rank[i] == rank[j] ==> i == j)
    ensures Downhill(f, rank)
  {
  }

  function Pow2(n: nat): (r: nat)
    ensures r > 0
  {
    if n == 0 then 1 else 2 * Pow2(n - 1)
  }

  ghost predicate Ranked(w: seq<nat>, rank: seq<nat>) {
    forall i :: 0 <= i < |w| ==> w[i] < |rank|
  }

  /** Each waiting block weighs more than all lower ones together. */
  ghost function Weight(w: seq<nat>, rank: seq<nat>): nat
    requires Ranked(w, rank)
  {
    if w == [] then 0 else Pow2(rank[w[0]]) + Weight(w[1..], rank)
  }

  lemma {:induction false} WeightConcat(a: seq<nat>, b: seq<nat>, rank: seq<nat>)
    requires Ranked(a, rank) && Ranked(b, rank)
    ensures Ranked(a + b, rank) && Weight(a + b, rank) == Weight(a, rank) + Weight(b, rank)
    decreases |a|
  {
    if a == [] {
      assert a + b == b;
    } else {
      WeightConcat(a[1..], b, rank);
      assert (a + b)[1..] == a[1..] + b;
    }
  }

  function Without(w: seq<nat>, i: nat): seq<nat>
    requires i < |w|
  {
    w[..i] + w[i + 1..]
  }

  lemma WeightWithout(w: seq<nat>, rank: seq<nat>, i: nat)
    requires Ranked(w, rank) && i < |w|
    ensures Ranked(Without(w, i), rank)
    ensures Weight(w, rank) == Pow2(rank[w[i]]) + Weight(Without(w, i), rank)
  {
    hide Pow2;
    var (a, x, b) := (w[..i], [w[i]], w[i + 1..]);
    assert w == a + (x + b) && x[1..] == [];
    assert Weight(x, rank) == Pow2(rank[w[i]]) + Weight([], rank);
    WeightConcat(x, b, rank);
    WeightConcat(a, x + b, rank);
    WeightConcat(a, b, rank);
  }

  /** Distinct numbers below `k`. */
  ghost predicate LowRanks(w: seq<nat>, rank: seq<nat>, k: nat)
    requires Ranked(w, rank)
  {
    && (forall i :: 0 <= i < |w| ==> rank[w[i]] < k)
    && (forall i, j :: 0 <= i < j < |w| ==> rank[w[i]] != rank[w[j]])
  }

  lemma LowWithout(w: seq<nat>, rank: seq<nat>, k: nat, i: nat)
    requires Ranked(w, rank) && LowRanks(w, rank, k) && i < |w| && rank[w[i]] == k - 1
    ensures Ranked(Without(w, i), rank) && LowRanks(Without(w, i), rank, k - 1)
  {
    var v := Without(w, i);
    assert forall m :: 0 <= m < |v| ==> v[m] == w[if m < i then m else m + 1];
  }

  lemma {:induction false} LowerWeighLess(w: seq<nat>, rank: seq<nat>, k: nat)
    requires Ranked(w, rank) && LowRanks(w, rank, k)
    ensures Weight(w, rank) < Pow2(k)
    decreases k
  {
    hide Weight, Without;
    if k == 0 {
      NoneBelowZero(w, rank);
    } else if i :| 0 <= i < |w| && rank[w[i]] == k - 1 {
      WeightWithout(w, rank, i);
      LowWithout(w, rank, k, i);
      LowerWeighLess(Without(w, i), rank, k - 1);
    } else {
      LowerWeighLess(w, rank, k - 1);
    }
  }

  lemma NoneBelowZero(w: seq<nat>, rank: seq<nat>)
    requires Ranked(w, rank) && LowRanks(w, rank, 0)
    ensures Weight(w, rank) == 0
  {
  }

  lemma InternalRanked(f: Problem, r: Run, rank: seq<nat>)
    requires Proper(f, r) && Downhill(f, rank)
    ensures Ranked(r.worklist, rank)
  {
    hide AllCells, TotalOuts, Graph.Valid;
  }

  /** Every step makes the worklist lighter. */
  lemma StepLightens(f: Problem, r: Run, rank: seq<nat>)
    requires Proper(f, r) && Downhill(f, rank) && r.worklist != []
    ensures Proper(f, Advance(f, r)) && Ranked(r.worklist, rank) && Ranked(Advance(f, r).worklist, rank)
    ensures Weight(Advance(f, r).worklist, rank) < Weight(r.worklist, rank)
  {
    hide AllCells, Proper, Advance, Graph.Pushed, Graph.Valid, Downhill;
    var q := Advance(f, r);
    StepProper(f, r);
    StepKeepsLists(f, r);
    InternalRanked(f, r, rank);
    InternalRanked(f, q, rank);
    var (b, tail) := (r.worklist[0], r.worklist[1..]);
    var pushed := q.worklist[..|q.worklist| - |tail|];
    assert q.worklist == pushed + tail;
    PushedLower(f, r, rank, pushed);
    LowerWeighLess(pushed, rank, rank[b]);
    WeightConcat(pushed, tail, rank);
  }

  lemma PushedLower(f: Problem, r: Run, rank: seq<nat>, pushed: seq<nat>)
    requires Proper(f, r) && Downhill(f, rank) && r.worklist != [] && r.worklist[0] < |rank| && Ranked(pushed, rank)
    requires Proper(f, Advance(f, r)) && Advance(f, r).worklist == pushed + r.worklist[1..]
    requires r.worklist[0] < |f.graph.psTable| && StepLists(f, r, Advance(f, r))
    ensures forall i :: 0 <= i < |pushed| ==> rank[pushed[i]] < rank[r.worklist[0]]
    ensures forall i, j :: 0 <= i < j < |pushed| ==> rank[pushed[i]] != rank[pushed[j]]
  {
    hide AllCells, TotalOuts, Advance, Graph.Pushed, Graph.Valid;
    var (w, tail, b) := (Advance(f, r).worklist, r.worklist[1..], r.worklist[0]);
    f.graph.TailDistinct(r.worklist);
    forall i | 0 <= i < |pushed|
      ensures f.graph.Internal(pushed[i]) && rank[pushed[i]] < rank[b]
    {
      assert w[i] == pushed[i] && pushed[i] in w;
      forall j | 0 <= j < |tail|
        ensures tail[j] != pushed[i]
      {
        assert w[|pushed| + j] == tail[j];
      }
    }
    forall i, j | 0 <= i < j < |pushed|
      ensures rank[pushed[i]] != rank[pushed[j]]
    {
      assert w[i] == pushed[i] && w[j] == pushed[j];
    }
  }

  /** On a function without loops the run ends. */
  lemma LoopFreeRunEnds(f: Problem, worklist: seq<nat>) returns (n: nat)
    requires Proper(f, Initial(f, worklist)) && f.Valid() && LoopFree(f)
    ensures After(f, Initial(f, worklist), n).worklist == []
  {
    hide AllCells, Proper, Downhill, After, Initial;
    LoopFreeIffDownhill(f);
    var rank :| Downhill(f, rank);
    LoopFreeEnds(f, worklist, rank);
    n := Weight(worklist, rank);
  }

  /** Namely within as many visits as its first worklist weighs. */
  lemma LoopFreeEnds(f: Problem, worklist: seq<nat>, rank: seq<nat>)
    requires Proper(f, Initial(f, worklist)) && Downhill(f, rank)
    ensures Ranked(worklist, rank)
    ensures After(f, Initial(f, worklist), Weight(worklist, rank)).worklist == []
  {
    hide AllCells, Proper, Downhill, After;
    InternalRanked(f, Initial(f, worklist), rank);
    EachStepCounts(f, worklist, rank, Weight(worklist, rank));
  }

  lemma {:induction false} EachStepCounts(f: Problem, worklist: seq<nat>, rank: seq<nat>, n: nat)
    requires Proper(f, Initial(f, worklist)) && Downhill(f, rank)
    ensures var w := After(f, Initial(f, worklist), n).worklist;
      && Ranked(worklist, rank) && Ranked(w, rank)
      && (w == [] || Weight(w, rank) + n <= Weight(worklist, rank))
    decreases n
  {
    hide AllCells, Proper, Downhill, Weight, Ranked, Advance;
    InternalRanked(f, Initial(f, worklist), rank);
    InternalRanked(f, After(f, Initial(f, worklist), n), rank);
    if n > 0 {
      EachStepCounts(f, worklist, rank, n - 1);
      var r := After(f, Initial(f, worklist), n - 1);
      if r.worklist != [] { StepLightens(f, r, rank); } else { EmptyStays(f, r); }
    }
  }

  // ---- Listings that no edge goes against ----

  /** All blocks, each before its successors. */
  ghost predicate Forward(f: Problem, w: seq<nat>) {
    && f.Valid() && f.graph.Distinct(w) && (forall b :: f.graph.Internal(b) ==> b in w)
    && forall i, j :: 0 <= i < |w| && 0 <= j < |w| && w[j] in f.graph.psTable[w[i]].succ ==> i < j
  }

  lemma {:induction false} PushedNothing(g: Graph, worklist: seq<nat>, succ: seq<nat>)
    requires forall s :: s in succ && g.Internal(s) ==> s in worklist
    ensures g.Pushed(worklist, succ) == worklist
    decreases |succ|
  {
    if succ != [] { PushedNothing(g, worklist, succ[..|succ| - 1]); }
  }

  lemma SuccessorsWait(f: Problem, w: seq<nat>, n: nat)
    requires Forward(f, w) && n < |w|
    ensures f.graph.Internal(w[n]) && w[n] < |f.graph.psTable|
    ensures forall s :: s in f.graph.psTable[w[n]].succ && f.graph.Internal(s) ==> s in w[n + 1..]
  {
    hide AllCells, Graph.Dual, Graph.UniqueStarts, Graph.OutsideIsLeaf;
    forall s | s in f.graph.psTable[w[n]].succ && f.graph.Internal(s)
      ensures s in w[n + 1..]
    {
      var j :| 0 <= j < |w| && w[j] == s;
      assert w[n + 1..][j - n - 1] == s;
    }
  }

  /** The blocks before `n` are done with, and satisfy their equations. */
  ghost predicate DoneTo(f: Problem, w: seq<nat>, n: nat, r: Run)
    requires f.Valid() && n <= |w|
  {
    && r.worklist == w[n..] && Shaped(f, OutSites(r.out))
    && OthersSolved(f, OutSites(r.out), Members(w[n..]))
  }

  lemma ForwardStep(f: Problem, w: seq<nat>, n: nat, r: Run)
    requires Proper(f, r) && Forward(f, w) && n < |w| && DoneTo(f, w, n, r)
    ensures DoneTo(f, w, n + 1, Advance(f, r))
  {
    hide AllCells, Forward, OthersSolved, NewContext, Visited, Graph.Valid, Graph.Distinct, Graph.Pushed, TotalOuts,
         Sizes;
    OutSitesShaped(f, Advance(f, r).out) by { StepProper(f, r); }
    SuccessorsWait(f, w, n);
    assert w[n..][1..] == w[n + 1..] && r.worklist[0] == w[n];
    PushedNothing(f.graph, w[n + 1..], f.graph.psTable[w[n]].succ);
    VisitSites(f, r.out, w[n], r.visits + 1);
    assert Members(w[n..]) - {w[n]} <= Members(w[n + 1..]);
    VisitSolves(f, OutSites(r.out), w[n], Members(w[n..]), Members(w[n + 1..]));
  }

  lemma {:induction false} ForwardState(f: Problem, w: seq<nat>, n: nat)
    requires Proper(f, Initial(f, w)) && Forward(f, w) && n <= |w|
    ensures DoneTo(f, w, n, After(f, Initial(f, w), n))
    decreases n
  {
    hide AllCells, Forward, DoneTo, Graph.Valid, Graph.Distinct, TotalOuts, Advance;
    if n == 0 {
      ForwardStart(f, w);
    } else {
      ForwardState(f, w, n - 1);
      ForwardStep(f, w, n - 1, After(f, Initial(f, w), n - 1));
    }
  }

  lemma ForwardStart(f: Problem, w: seq<nat>)
    requires Proper(f, Initial(f, w)) && Forward(f, w)
    ensures DoneTo(f, w, 0, Initial(f, w))
  {
    hide AllCells, Graph.Valid, Graph.Distinct;
    OutSitesShaped(f, Initial(f, w).out);
    assert w[0..] == w;
  }

  /** Such a run visits every block once, and ends with the least solution. */
  lemma ForwardEndsRight(f: Problem, w: seq<nat>)
    requires Proper(f, Initial(f, w)) && Forward(f, w)
    ensures var r := After(f, Initial(f, w), |w|);
      r.worklist == [] && LeastFixpoint(f, OutSites(r.out))
  {
    hide AllCells, Forward, LeastFixpoint, OthersSolved, Graph.Valid, After, Initial, Proper;
    ForwardState(f, w, |w|);
    assert Members(w[|w|..]) == {};
    CountedRunsAreSound(f, w, |w|);
  }

  /** In such a listing every definition comes one way. */
  lemma ForwardOneWay(f: Problem, w: seq<nat>)
    requires Forward(f, w)
    ensures NV.AllOneWay(f, w)
  {
    hide AllCells, NV.OnceAt, NV.OneWay, Graph.Dual, Graph.UniqueStarts, Graph.OutsideIsLeaf;
    forall d | Born(f, d)
      ensures NV.Once(f, w, d.block)
    {
      var i :| 0 <= i < |w| && w[i] == d.block;
      NV.ForwardOnce(f, w, i);
    }
    forall c | c in AllCells() { NV.OnceDefinedOneWay(f, w, c); }
  }
}
