/** The memoized comparison of two functions' flows (src/analysis/ProgramComparator.cpp). */
module ProgramComparators {
  import opened Wrappers
  import opened MachineCode
  import opened ControlFlowGraphs
  import opened FlowContexts
  import opened DataFlowNodes
  import opened FlowEquivalence

  type Pair = (nat, nat)

  class VarNodeComparisonCache {
    var cache: map<Pair, bool>
    /** The pairs whose inputs were compared, in order. */
    ghost var expanded: seq<Pair>

    constructor ()
      ensures cache == map[] && expanded == []
    {
      cache, expanded := map[], [];
    }

    method Set(i: nat, j: nat, equal: bool)
      modifies `cache
      ensures cache == old(cache)[(i, j) := equal]
    {
      cache := cache[(i, j) := equal];
    }

    method Check(i: nat, j: nat) returns (r: Option<bool>)
      ensures r == if (i, j) in cache then Some(cache[(i, j)]) else None
    {
      if (i, j) in cache { return Some(cache[(i, j)]); }
      return None;
    }
  }

  /** What the cache says of pairs whose first node is below `bound` is right, as long as nothing has failed: it
      says true, and they match.  Pairs being compared have larger first nodes. */
  ghost predicate Sound(f1: Flow, f2: Flow, cache: map<Pair, bool>, bound: nat)
    requires f1.Valid() && f2.Valid()
  {
    forall i, j :: (i, j) in cache && i < bound ==>
      cache[(i, j)] && i < |f1.nodes| && j < |f2.nodes| && Match(f1, f2, i, j)
  }

  /** Every expanded pair below `bound` is finished, and so in the cache. */
  ghost predicate Finished(cache: map<Pair, bool>, expanded: seq<Pair>, bound: nat) {
    forall k :: 0 <= k < |expanded| && expanded[k].0 < bound ==> expanded[k] in cache
  }

  ghost predicate OnceEach(f1: Flow, f2: Flow, expanded: seq<Pair>) {
    && (forall k :: 0 <= k < |expanded| ==> expanded[k].0 < |f1.nodes| && expanded[k].1 < |f2.nodes|)
    && (forall k, m :: 0 <= k < m < |expanded| ==> expanded[k] != expanded[m])
  }

  /** Entries above `bound` are as before. */
  ghost predicate SameAbove(c: map<Pair, bool>, d: map<Pair, bool>, bound: nat) {
    forall p: Pair :: p.0 > bound ==> (p in c <==> p in d) && (p in c ==> c[p] == d[p])
  }

  ghost predicate ExpandedUpTo(e: seq<Pair>, e': seq<Pair>, bound: nat) {
    e <= e' && forall k :: |e| <= k < |e'| ==> e'[k].0 <= bound
  }

  class ProgramComparator {
    /** The instructions the two node graphs refer to. */
    var func1ptr: seq<Insn>
    var func2ptr: seq<Insn>

    constructor ()
    {
      func1ptr, func2ptr := [], [];
    }

    /** The checks of two nodes before their inputs. */
    method CompareLocally(f1: Flow, f2: Flow, i: nat, j: nat) returns (r: bool)
      requires f1.Valid() && f2.Valid() && i < |f1.nodes| && j < |f2.nodes|
      requires func1ptr == f1.code && func2ptr == f2.code
      ensures r == LocalMatch(f1, f2, i, j)
    {
      var (n1, n2) := (f1.nodes[i], f2.nodes[j]);
      if !SameType(n1.kind, n2.kind) { return false; }
      if Located(n1.kind) {
        if func1ptr[n1.index].opcode != func2ptr[n2.index].opcode { return false; }
        var b1, b2 := FirstHolding(f1.graph.blocks, n1.index), FirstHolding(f2.graph.blocks, n2.index);
        return b1 == b2 && b1 != -1;
      }
      match n1.kind
      case FunctionInputNode(location) => return location == n2.kind.location;
      case ImmediateNode(_, value) => return value == n2.kind.value;
      case ReferenceNode(_, reloc) => return CompareRelocations(reloc, n2.kind.reloc);
      case _ => return true;
    }

    /** The comparison with a cache.  It gives the answer of the plain comparison; when that is true the cache is
        sound again, including the pair itself. */
    method CompareVarNodes(f1: Flow, f2: Flow, i: nat, j: nat, cache: VarNodeComparisonCache) returns (r: bool)
      requires f1.Valid() && f2.Valid() && i < |f1.nodes| && j < |f2.nodes|
      requires func1ptr == f1.code && func2ptr == f2.code
      requires Sound(f1, f2, cache.cache, i + 1)
      requires OnceEach(f1, f2, cache.expanded) && Finished(cache.cache, cache.expanded, i + 1)
      modifies cache
      decreases i, 1
      ensures r == Match(f1, f2, i, j)
      ensures r ==> Sound(f1, f2, cache.cache, i + 1) && SameAbove(old(cache.cache), cache.cache, i)
      ensures r ==> Finished(cache.cache, cache.expanded, i + 1)
      ensures OnceEach(f1, f2, cache.expanded) && ExpandedUpTo(old(cache.expanded), cache.expanded, i)
    {
      hide LocalMatch, Match, Finished, OnceEach;
      var cached := cache.Check(i, j);
      if cached.Some? { return cached.value; }
      MatchMeaning(f1, f2, i, j);
      var ok := CompareLocally(f1, f2, i, j);
      if !ok { return false; }
      r := CompareInputs(f1, f2, i, j, cache);
    }

    /** The loop over the inputs of two nodes that agree by themselves. */
    method CompareInputs(f1: Flow, f2: Flow, i: nat, j: nat, cache: VarNodeComparisonCache) returns (r: bool)
      requires f1.Valid() && f2.Valid() && i < |f1.nodes| && j < |f2.nodes|
      requires func1ptr == f1.code && func2ptr == f2.code && LocalMatch(f1, f2, i, j)
      requires (i, j) !in cache.cache && Sound(f1, f2, cache.cache, i + 1)
      requires OnceEach(f1, f2, cache.expanded) && Finished(cache.cache, cache.expanded, i + 1)
      modifies cache
      decreases i, 0
      ensures r == Match(f1, f2, i, j)
      ensures r ==> Sound(f1, f2, cache.cache, i + 1) && SameAbove(old(cache.cache), cache.cache, i)
      ensures r ==> Finished(cache.cache, cache.expanded, i + 1)
      ensures OnceEach(f1, f2, cache.expanded) && ExpandedUpTo(old(cache.expanded), cache.expanded, i)
    {
      hide LocalMatch, Match, Sound, Finished, FinishedBut, OnceEach, Comparing;
      MatchMeaning(f1, f2, i, j);
      InputsBelow(f1, i);
      InputsBelow(f2, j);
      var inputs1, inputs2 := f1.nodes[i].inputs, f2.nodes[j].inputs;
      NotYetExpanded(f1, f2, cache.cache, cache.expanded, i, j);
      StartComparing(f1, f2, cache.cache, cache.expanded, i, j);
      if inputs1 != [] { cache.expanded := cache.expanded + [(i, j)]; }
      for k := 0 to |inputs1|
        invariant k <= |inputs2|
        invariant forall m :: 0 <= m < k ==> Match(f1, f2, inputs1[m], inputs2[m])
        invariant Comparing(f1, f2, cache.cache, i, j) && SameAbove(old(cache.cache), cache.cache, i)
        invariant (i, j) in cache.cache <==> k > 0
        invariant OnceEach(f1, f2, cache.expanded) && ExpandedUpTo(old(cache.expanded), cache.expanded, i)
        invariant FinishedBut(cache.cache, cache.expanded, i, j)
        invariant inputs1 == [] ==> cache.expanded == old(cache.expanded)
      {
        if k >= |inputs2| { return false; }
        ghost var (before, expanded) := (cache.cache, cache.expanded);
        ComparingBelow(f1, f2, before, expanded, i, j, inputs1[k]);
        var same := CompareVarNodes(f1, f2, inputs1[k], inputs2[k], cache);
        if !same {
          cache.Set(i, j, false);
          return false;
        }
        InputCompared(f1, f2, before, expanded, cache.cache, cache.expanded, i, j, inputs1[k]);
        EnterPair(f1, f2, cache.cache, cache.expanded, i, j);
        cache.Set(i, j, true);
      }
      if |inputs2| > |inputs1| { return false; }
      PairCompared(f1, f2, cache.cache, cache.expanded, i, j);
      return true;
    }

    /** The comparison of two functions, block by block. */
    method CompareFunctionFlows(f1: Flow, f2: Flow) returns (r: bool, ghost expanded: seq<Pair>)
      requires f1.Valid() && f2.Valid()
      modifies this
      ensures r == FlowsMatch(f1, f2)
      ensures |expanded| <= |f1.nodes| * |f2.nodes|
    {
      hide Match, Sound, Finished, OnceEach, SameAbove, ExpandedUpTo;
      func1ptr, func2ptr := f1.code, f2.code;
      var cache := new VarNodeComparisonCache();
      EmptyCacheSound(f1, f2);
      for b := 0 to |f1.graph.blocks|
        invariant fresh(cache) && func1ptr == f1.code && func2ptr == f2.code
        invariant b <= |f2.graph.blocks|
        invariant forall k :: 0 <= k < b ==>
          SinksMatch(f1, f2, k) && f1.graph.psTable[k].succ == f2.graph.psTable[k].succ
        invariant Sound(f1, f2, cache.cache, |f1.nodes|) && OnceEach(f1, f2, cache.expanded)
        invariant Finished(cache.cache, cache.expanded, |f1.nodes|)
      {
        if b >= |f2.graph.blocks| {
          ExpandedFew(f1, f2, cache.expanded);
          return false, cache.expanded;
        }
        var same := CompareSinks(f1, f2, b, cache);
        if !same || f1.graph.psTable[b].succ != f2.graph.psTable[b].succ {
          ExpandedFew(f1, f2, cache.expanded);
          return false, cache.expanded;
        }
      }
      ExpandedFew(f1, f2, cache.expanded);
      return |f2.graph.blocks| <= |f1.graph.blocks|, cache.expanded;
    }

    /** The sinks of one block. */
    method CompareSinks(f1: Flow, f2: Flow, b: nat, cache: VarNodeComparisonCache) returns (r: bool)
      requires f1.Valid() && f2.Valid() && b < |f1.sinks| && b < |f2.sinks|
      requires func1ptr == f1.code && func2ptr == f2.code
      requires Sound(f1, f2, cache.cache, |f1.nodes|) && OnceEach(f1, f2, cache.expanded)
      requires Finished(cache.cache, cache.expanded, |f1.nodes|)
      modifies cache
      ensures r == SinksMatch(f1, f2, b)
      ensures r ==> Sound(f1, f2, cache.cache, |f1.nodes|) && Finished(cache.cache, cache.expanded, |f1.nodes|)
      ensures OnceEach(f1, f2, cache.expanded)
    {
      hide Match, Sound, Finished, OnceEach, SameAbove, ExpandedUpTo;
      var sinks1, sinks2 := f1.sinks[b], f2.sinks[b];
      for k := 0 to |sinks1|
        invariant k <= |sinks2|
        invariant forall m :: 0 <= m < k ==> Match(f1, f2, sinks1[m], sinks2[m])
        invariant Sound(f1, f2, cache.cache, |f1.nodes|) && OnceEach(f1, f2, cache.expanded)
        invariant Finished(cache.cache, cache.expanded, |f1.nodes|)
      {
        if k >= |sinks2| { return false; }
        ghost var (before, expanded) := (cache.cache, cache.expanded);
        SoundBelow(f1, f2, before, expanded, sinks1[k]);
        var same := CompareVarNodes(f1, f2, sinks1[k], sinks2[k], cache);
        if !same {
          cache.Set(sinks1[k], sinks2[k], true);
          return false;
        }
        SinkCompared(f1, f2, before, expanded, cache.cache, cache.expanded, sinks1[k]);
      }
      return |sinks2| <= |sinks1|;
    }
  }

  /** While the inputs of a pair are compared: sound below it, and of its own row only the pair itself may have been
      entered early. */
  ghost predicate Comparing(f1: Flow, f2: Flow, cache: map<Pair, bool>, i: nat, j: nat)
    requires f1.Valid() && f2.Valid()
  {
    && Sound(f1, f2, cache, i)
    && ((i, j) in cache ==> cache[(i, j)])
    && forall m :: m != j && (i, m) in cache ==>
         cache[(i, m)] && i < |f1.nodes| && m < |f2.nodes| && Match(f1, f2, i, m)
  }

  ghost predicate FinishedBut(cache: map<Pair, bool>, expanded: seq<Pair>, i: nat, j: nat) {
    forall k :: 0 <= k < |expanded| && expanded[k].0 <= i && expanded[k] != (i, j) ==> expanded[k] in cache
  }

  lemma StartComparing(f1: Flow, f2: Flow, c: map<Pair, bool>, e: seq<Pair>, i: nat, j: nat)
    requires f1.Valid() && f2.Valid() && (i, j) !in c && Sound(f1, f2, c, i + 1) && Finished(c, e, i + 1)
    ensures Comparing(f1, f2, c, i, j) && FinishedBut(c, e, i, j) && FinishedBut(c, e + [(i, j)], i, j)
  {
    hide Match;
  }

  lemma ComparingBelow(f1: Flow, f2: Flow, c: map<Pair, bool>, e: seq<Pair>, i: nat, j: nat, input: nat)
    requires f1.Valid() && f2.Valid() && input < i && Comparing(f1, f2, c, i, j) && FinishedBut(c, e, i, j)
    ensures Sound(f1, f2, c, input + 1) && Finished(c, e, input + 1)
  {
    hide Match;
  }

  lemma EnterPair(f1: Flow, f2: Flow, c: map<Pair, bool>, e: seq<Pair>, i: nat, j: nat)
    requires f1.Valid() && f2.Valid() && Comparing(f1, f2, c, i, j) && FinishedBut(c, e, i, j)
    ensures Comparing(f1, f2, c[(i, j) := true], i, j) && FinishedBut(c[(i, j) := true], e, i, j)
  {
    hide Match;
  }

  /** All inputs match: the pair may stay in the cache. */
  lemma PairCompared(f1: Flow, f2: Flow, c: map<Pair, bool>, e: seq<Pair>, i: nat, j: nat)
    requires f1.Valid() && f2.Valid() && i < |f1.nodes| && j < |f2.nodes|
    requires Match(f1, f2, i, j) && Comparing(f1, f2, c, i, j) && FinishedBut(c, e, i, j)
    requires (i, j) in c || (i, j) !in e
    ensures Sound(f1, f2, c, i + 1) && Finished(c, e, i + 1)
  {
    hide Match;
  }

  lemma NotYetExpanded(f1: Flow, f2: Flow, cache: map<Pair, bool>, expanded: seq<Pair>, i: nat, j: nat)
    requires OnceEach(f1, f2, expanded) && Finished(cache, expanded, i + 1) && (i, j) !in cache
    requires i < |f1.nodes| && j < |f2.nodes|
    ensures OnceEach(f1, f2, expanded + [(i, j)]) && (i, j) !in expanded
  {
  }

  /** After a matching input: its entries are sound, the larger ones are as before. */
  lemma InputCompared(f1: Flow, f2: Flow, c: map<Pair, bool>, e: seq<Pair>, d: map<Pair, bool>, e': seq<Pair>,
                      i: nat, j: nat, input: nat)
    requires f1.Valid() && f2.Valid() && input < i && Comparing(f1, f2, c, i, j) && FinishedBut(c, e, i, j)
    requires Sound(f1, f2, d, input + 1) && SameAbove(c, d, input)
    requires Finished(d, e', input + 1) && ExpandedUpTo(e, e', input)
    ensures Comparing(f1, f2, d, i, j) && FinishedBut(d, e', i, j)
  {
    hide Match;
    forall k | 0 <= k < |e'| && e'[k].0 <= i && e'[k] != (i, j)
      ensures e'[k] in d
    {
      if e'[k].0 > input { assert e'[k] == e[k]; }
    }
  }

  lemma EmptyCacheSound(f1: Flow, f2: Flow)
    requires f1.Valid() && f2.Valid()
    ensures Sound(f1, f2, map[], |f1.nodes|) && OnceEach(f1, f2, []) && Finished(map[], [], |f1.nodes|)
  {
  }

  lemma SoundBelow(f1: Flow, f2: Flow, c: map<Pair, bool>, e: seq<Pair>, i: nat)
    requires f1.Valid() && f2.Valid() && i < |f1.nodes|
    requires Sound(f1, f2, c, |f1.nodes|) && Finished(c, e, |f1.nodes|)
    ensures Sound(f1, f2, c, i + 1) && Finished(c, e, i + 1)
  {
    hide Match;
  }

  lemma SinkCompared(f1: Flow, f2: Flow, c: map<Pair, bool>, e: seq<Pair>, d: map<Pair, bool>, e': seq<Pair>, i: nat)
    requires f1.Valid() && f2.Valid() && i < |f1.nodes|
    requires Sound(f1, f2, c, |f1.nodes|) && Finished(c, e, |f1.nodes|)
    requires Sound(f1, f2, d, i + 1) && SameAbove(c, d, i)
    requires Finished(d, e', i + 1) && ExpandedUpTo(e, e', i)
    ensures Sound(f1, f2, d, |f1.nodes|) && Finished(d, e', |f1.nodes|)
  {
    hide Match;
    forall k | 0 <= k < |e'| && e'[k].0 < |f1.nodes|
      ensures e'[k] in d
    {
      if e'[k].0 > i { assert e'[k] == e[k]; }
    }
  }

  // ---- How many expansions ----

  /** Distinct pairs of nodes are at most as many as the product of the node counts. */
  lemma ExpandedFew(f1: Flow, f2: Flow, expanded: seq<Pair>)
    requires OnceEach(f1, f2, expanded)
    ensures |expanded| <= |f1.nodes| * |f2.nodes|
  {
    DistinctPairs(expanded, |f1.nodes|, |f2.nodes|);
  }

  lemma {:induction false} DistinctPairs(e: seq<Pair>, m: nat, n: nat)
    requires forall k :: 0 <= k < |e| ==> e[k].0 < m && e[k].1 < n
    requires forall k, l :: 0 <= k < l < |e| ==> e[k] != e[l]
    ensures |e| <= m * n
  {
    var s := Grid(m, n);
    PairsFit(e, s);
  }

  ghost function Grid(m: nat, n: nat): (s: set<Pair>)
    ensures |s| == m * n && forall p: Pair :: p in s <==> p.0 < m && p.1 < n
  {
    if m == 0 then {}
    else
      assert (m - 1) * n + n == m * n;
      assert Grid(m - 1, n) !! Row(m - 1, n);
      Grid(m - 1, n) + Row(m - 1, n)
  }

  ghost function Row(i: nat, n: nat): (s: set<Pair>)
    ensures |s| == n && forall p: Pair :: p in s <==> p.0 == i && p.1 < n
  {
    if n == 0 then {} else Row(i, n - 1) + {(i, n - 1)}
  }

  lemma {:induction false} PairsFit(e: seq<Pair>, s: set<Pair>)
    requires forall k :: 0 <= k < |e| ==> e[k] in s
    requires forall k, l :: 0 <= k < l < |e| ==> e[k] != e[l]
    ensures |e| <= |s|
    decreases |e|
  {
    if e != [] {
      var last := e[|e| - 1];
      PairsFit(e[..|e| - 1], s - {last});
    }
  }
}
