/** Two analyses of the same code: the nodes they make differ only in the order of phi inputs, and when that order
    makes the comparison fail. */
module SameCode {
  import opened MachineCode
  import opened ControlFlowGraphs
  import opened DataFlowNodes
  import opened CanonicalNodes
  import opened ReorderedPhis
  import opened FlowEquivalence

  /** The same code, blocks, nodes and sinks, up to the order of phi inputs. */
  ghost predicate Alike(f1: Flow, f2: Flow) {
    && f1.Valid() && f2.Valid() && f1.code == f2.code && f1.graph == f2.graph && f1.sinks == f2.sinks
    && SameNodes(f1.nodes, f2.nodes)
  }

  lemma AlikeNode(f1: Flow, f2: Flow, i: nat)
    requires Alike(f1, f2) && i < |f1.nodes|
    ensures i < |f2.nodes| && f1.nodes[i].kind == f2.nodes[i].kind && f1.nodes[i].index == f2.nodes[i].index
    ensures !f1.nodes[i].kind.PhiNode? ==> f1.nodes[i] == f2.nodes[i]
    ensures |f1.nodes[i].inputs| == |f2.nodes[i].inputs|
    ensures Elements(f1.nodes[i].inputs) == Elements(f2.nodes[i].inputs)
  {
    hide Canon, Flow.Valid;
    SameNode(f1.nodes, f2.nodes, i);
  }

  lemma AlikeLabel(f1: Flow, f2: Flow, i: nat)
    requires Alike(f1, f2) && i < |f1.nodes|
    ensures i < |f2.nodes| && LabelOf(f1, i) == LabelOf(f2, i)
  {
    hide Canon, Elements, Flow.Valid;
    AlikeNode(f1, f2, i);
  }

  // ---- Nodes the comparison can come to ----

  /** A way from a sink down to a node. */
  ghost predicate Way(f: Flow, w: seq<nat>, i: nat)
    requires f.Valid()
  {
    && 0 < |w| && w[|w| - 1] == i && IsListedSink(f, w[0])
    && forall k :: 0 <= k < |w| - 1 ==> IsInput(f, w[k], w[k + 1])
  }

  ghost predicate IsListedSink(f: Flow, s: nat) {
    exists b, k :: 0 <= b < |f.sinks| && 0 <= k < |f.sinks[b]| && f.sinks[b][k] == s
  }

  ghost predicate IsInput(f: Flow, i: nat, j: nat) {
    i < |f.nodes| && j in f.nodes[i].inputs
  }

  ghost predicate Used(f: Flow, i: nat)
    requires f.Valid()
  {
    exists w :: Way(f, w, i)
  }

  lemma WayInside(f: Flow, w: seq<nat>, i: nat)
    requires f.Valid() && Way(f, w, i)
    ensures forall k :: 0 <= k < |w| ==> w[k] < |f.nodes|
  {
    forall k | 0 <= k < |w|
      ensures w[k] < |f.nodes|
    {
      if k == 0 {
        var b, m :| 0 <= b < |f.sinks| && 0 <= m < |f.sinks[b]| && f.sinks[b][m] == w[0];
      } else {
        assert IsInput(f, w[k - 1], w[k]);
        InputsBelow(f, w[k - 1]);
      }
    }
  }

  lemma InputUsed(f: Flow, i: nat, j: nat)
    requires f.Valid() && Used(f, i) && IsInput(f, i, j)
    ensures Used(f, j)
  {
    hide Flow.Valid;
    var w :| Way(f, w, i);
    var v := w + [j];
    assert Way(f, v, j);
  }

  // ---- The order of phi inputs ----

  /** At each place of the two lists there are nodes with equal trees. */
  ghost predicate OrderAgrees(f1: Flow, f2: Flow, i: nat)
    requires f1.Valid() && i < |f1.nodes| && i < |f2.nodes|
  {
    var (a, b) := (f1.nodes[i].inputs, f2.nodes[i].inputs);
    |a| == |b| && forall k :: 0 <= k < |a| ==>
      a[k] < |f1.nodes| && b[k] < |f1.nodes| && Unfold(f1, a[k]) == Unfold(f1, b[k])
  }

  ghost predicate OrdersAgree(f1: Flow, f2: Flow)
    requires Alike(f1, f2)
  {
    forall i :: 0 <= i < |f1.nodes| && Used(f1, i) && f1.nodes[i].kind.PhiNode? ==>
      i < |f2.nodes| && OrderAgrees(f1, f2, i)
  }

  /** If the orders agree, every node in use has the same tree in both. */
  lemma {:induction false} AlikeTrees(f1: Flow, f2: Flow, i: nat)
    requires Alike(f1, f2) && OrdersAgree(f1, f2) && i < |f1.nodes| && Used(f1, i)
    ensures i < |f2.nodes| && Unfold(f1, i) == Unfold(f2, i)
    decreases i
  {
    hide Used, LabelOf, Canon, Elements, Flow.Valid;
    AlikeLabel(f1, f2, i);
    AlikeNode(f1, f2, i);
    InputsBelow(f1, i);
    InputsBelow(f2, i);
    var (a, b) := (f1.nodes[i].inputs, f2.nodes[i].inputs);
    forall k | 0 <= k < |a|
      ensures Unfold(f1, a[k]) == Unfold(f2, b[k])
    {
      SharedInput(f1, f2, i, k);
      InputUsed(f1, i, b[k]);
      AlikeTrees(f1, f2, b[k]);
    }
    assert Unfold(f1, i).children == Unfold(f2, i).children;
  }

  lemma SharedInput(f1: Flow, f2: Flow, i: nat, k: nat)
    requires Alike(f1, f2) && i < |f1.nodes| && i < |f2.nodes| && k < |f2.nodes[i].inputs|
    ensures IsInput(f1, i, f2.nodes[i].inputs[k])
  {
    hide Canon;
    AlikeNode(f1, f2, i);
    assert f2.nodes[i].inputs[k] in Elements(f2.nodes[i].inputs);
  }

  /** Two analyses of the same code match if the orders of their phi inputs agree. */
  lemma AgreeingOrdersMatch(f1: Flow, f2: Flow)
    requires Alike(f1, f2) && AllFound(f1) && OrdersAgree(f1, f2)
    ensures FlowsMatch(f1, f2)
  {
    hide Match, Unfold, Found, Alike, OrdersAgree, Used;
    assert f1.Valid() && f2.Valid() && f1.graph == f2.graph && f1.sinks == f2.sinks by { AlikeParts(f1, f2); }
    forall b, k | 0 <= b < |f1.sinks| && 0 <= k < |f1.sinks[b]|
      ensures Match(f1, f2, f1.sinks[b][k], f2.sinks[b][k])
    {
      var s := f1.sinks[b][k];
      SinkUsed(f1, b, k);
      AlikeTrees(f1, f2, s);
      FoundUnfolds(f1, s);
      MatchIffTreesEqual(f1, f2, s, s);
    }
    assert forall b :: 0 <= b < |f1.sinks| ==> SinksMatch(f1, f2, b);
  }

  lemma AlikeParts(f1: Flow, f2: Flow)
    requires Alike(f1, f2)
    ensures f1.Valid() && f2.Valid() && f1.graph == f2.graph && f1.sinks == f2.sinks
  {
  }

  lemma SinkUsed(f: Flow, b: nat, k: nat)
    requires f.Valid() && b < |f.sinks| && k < |f.sinks[b]|
    ensures Used(f, f.sinks[b][k])
  {
    assert Way(f, [f.sinks[b][k]], f.sinks[b][k]);
  }

  // ---- The converse ----

  /** No phi node lies under the node. */
  ghost predicate NoPhiUnder(f: Flow, i: nat)
    requires f.Valid() && i < |f.nodes|
    decreases i
  {
    && !f.nodes[i].kind.PhiNode?
    && forall k :: 0 <= k < |f.nodes[i].inputs| ==>
         assert f.nodes[i].inputs[k] < i; NoPhiUnder(f, f.nodes[i].inputs[k])
  }

  /** No phi node lies under another one. */
  ghost predicate FlatPhis(f: Flow)
    requires f.Valid()
  {
    forall i, k :: 0 <= i < |f.nodes| && f.nodes[i].kind.PhiNode? && 0 <= k < |f.nodes[i].inputs| ==>
      f.nodes[i].inputs[k] < |f.nodes| && NoPhiUnder(f, f.nodes[i].inputs[k])
  }

  lemma {:induction false} SameWithoutPhi(f1: Flow, f2: Flow, i: nat)
    requires Alike(f1, f2) && i < |f1.nodes| && NoPhiUnder(f1, i)
    ensures i < |f2.nodes| && Unfold(f1, i) == Unfold(f2, i)
    decreases i
  {
    hide LabelOf, Canon, Elements, Flow.Valid;
    AlikeLabel(f1, f2, i);
    AlikeNode(f1, f2, i);
    InputsBelow(f1, i);
    var a := f1.nodes[i].inputs;
    forall k | 0 <= k < |a|
      ensures Unfold(f1, a[k]) == Unfold(f2, a[k])
    {
      SameWithoutPhi(f1, f2, a[k]);
    }
    assert Unfold(f1, i).children == Unfold(f2, i).children;
  }

  /** Above a phi node that no phi node lies under or over, both flows have the same nodes at the same places. */
  lemma {:induction false} SameAlongWay(f1: Flow, f2: Flow, w: seq<nat>, i: nat)
    requires Alike(f1, f2) && FlowsMatch(f1, f2) && Way(f1, w, i) && i < |f1.nodes| && i < |f2.nodes|
    requires forall k :: 0 <= k < |w| - 1 ==> w[k] < |f1.nodes| && !f1.nodes[w[k]].kind.PhiNode?
    ensures Unfold(f1, i) == Unfold(f2, i)
    decreases |w|
  {
    hide Match, Unfold, Found, Canon, Elements, Flow.Valid;
    if |w| == 1 {
      var b, k :| 0 <= b < |f1.sinks| && 0 <= k < |f1.sinks[b]| && f1.sinks[b][k] == i;
      SinkMatches(f1, f2, b, k);
      MatchIffTreesEqual(f1, f2, i, i);
    } else {
      var v := w[..|w| - 1];
      var p := w[|w| - 2];
      assert Way(f1, v, p);
      AlikeNode(f1, f2, p);
      SameAlongWay(f1, f2, v, p);
      assert IsInput(f1, p, i);
      var k :| 0 <= k < |f1.nodes[p].inputs| && f1.nodes[p].inputs[k] == i;
      ChildTree(f1, p, k);
      ChildTree(f2, p, k);
    }
  }

  lemma SinkMatches(f1: Flow, f2: Flow, b: nat, k: nat)
    requires f1.Valid() && f2.Valid() && f1.sinks == f2.sinks && FlowsMatch(f1, f2)
    requires b < |f1.sinks| && k < |f1.sinks[b]|
    ensures f1.sinks[b][k] < |f1.nodes| && f1.sinks[b][k] < |f2.nodes|
    ensures Match(f1, f2, f1.sinks[b][k], f1.sinks[b][k])
  {
    hide Match;
    assert SinksMatch(f1, f2, b);
  }

  lemma ChildTree(f: Flow, i: nat, k: nat)
    requires f.Valid() && i < |f.nodes| && k < |f.nodes[i].inputs|
    ensures f.nodes[i].inputs[k] < |f.nodes| && Unfold(f, i).children[k] == Unfold(f, f.nodes[i].inputs[k])
  {
    InputsBelow(f, i);
  }

  lemma {:induction false} NoPhiAbove(f: Flow, w: seq<nat>, i: nat, k: nat)
    requires f.Valid() && FlatPhis(f) && Way(f, w, i) && i < |f.nodes| && f.nodes[i].kind.PhiNode? && k < |w| - 1
    ensures w[k] < |f.nodes| && !f.nodes[w[k]].kind.PhiNode?
  {
    hide Flow.Valid;
    WayInside(f, w, i);
    if f.nodes[w[k]].kind.PhiNode? {
      assert IsInput(f, w[k], w[k + 1]);
      var m :| 0 <= m < |f.nodes[w[k]].inputs| && f.nodes[w[k]].inputs[m] == w[k + 1];
      assert NoPhiUnder(f, w[k + 1]);
      NoPhiDown(f, w, k + 1, |w| - 1);
    }
  }

  lemma {:induction false} NoPhiDown(f: Flow, w: seq<nat>, from: nat, last: nat)
    requires f.Valid() && from <= last < |w| && (forall k :: 0 <= k < |w| ==> w[k] < |f.nodes|)
    requires forall k :: 0 <= k < |w| - 1 ==> IsInput(f, w[k], w[k + 1])
    requires NoPhiUnder(f, w[from])
    ensures NoPhiUnder(f, w[last])
    decreases last
  {
    hide Flow.Valid;
    if from < last {
      NoPhiDown(f, w, from, last - 1);
      assert IsInput(f, w[last - 1], w[last]);
      InputsBelow(f, w[last - 1]);
      var m :| 0 <= m < |f.nodes[w[last - 1]].inputs| && f.nodes[w[last - 1]].inputs[m] == w[last];
    }
  }

  /** If no phi node lies under another, two analyses of the same code match exactly if the orders agree. */
  lemma AlikeMatchIffOrdersAgree(f1: Flow, f2: Flow)
    requires Alike(f1, f2) && AllFound(f1) && FlatPhis(f1)
    ensures FlowsMatch(f1, f2) <==> OrdersAgree(f1, f2)
  {
    hide Match, Unfold, Found, Canon, Elements, FlatPhis, OrderAgrees, Used, FlowsMatch, AllFound, Flow.Valid;
    if OrdersAgree(f1, f2) { AgreeingOrdersMatch(f1, f2); }
    if FlowsMatch(f1, f2) {
      forall i | 0 <= i < |f1.nodes| && Used(f1, i) && f1.nodes[i].kind.PhiNode?
        ensures i < |f2.nodes| && OrderAgrees(f1, f2, i)
      {
        MatchAgrees(f1, f2, i);
      }
    }
  }

  lemma MatchAgrees(f1: Flow, f2: Flow, i: nat)
    requires Alike(f1, f2) && FlatPhis(f1) && FlowsMatch(f1, f2)
    requires i < |f1.nodes| && Used(f1, i) && f1.nodes[i].kind.PhiNode?
    ensures i < |f2.nodes| && OrderAgrees(f1, f2, i)
  {
    hide Match, Unfold, Found, Canon, Elements, FlowsMatch, NoPhiUnder, Flow.Valid;
    AlikeNode(f1, f2, i);
    var w :| Way(f1, w, i);
    forall k | 0 <= k < |w| - 1
      ensures w[k] < |f1.nodes| && !f1.nodes[w[k]].kind.PhiNode?
    {
      NoPhiAbove(f1, w, i, k);
    }
    SameAlongWay(f1, f2, w, i);
    var (a, b) := (f1.nodes[i].inputs, f2.nodes[i].inputs);
    forall k | 0 <= k < |a|
      ensures a[k] < |f1.nodes| && b[k] < |f1.nodes| && Unfold(f1, a[k]) == Unfold(f1, b[k])
    {
      ChildTree(f1, i, k);
      ChildTree(f2, i, k);
      SharedInput(f1, f2, i, k);
      InputsBelow(f1, i);
      var m :| 0 <= m < |a| && a[m] == b[k];
      assert NoPhiUnder(f1, a[m]);
      SameWithoutPhi(f1, f2, b[k]);
    }
  }

  // ---- Whatever the orders ----

  /** All inputs of the phi node have the same tree. */
  ghost predicate UniformPhi(f: Flow, i: nat)
    requires f.Valid() && i < |f.nodes|
  {
    var a := f.nodes[i].inputs;
    forall k, m :: 0 <= k < |a| && 0 <= m < |a| ==>
      a[k] < |f.nodes| && a[m] < |f.nodes| && Unfold(f, a[k]) == Unfold(f, a[m])
  }

  ghost predicate UniformPhis(f: Flow)
    requires f.Valid()
  {
    forall i :: 0 <= i < |f.nodes| && Used(f, i) && f.nodes[i].kind.PhiNode? ==> UniformPhi(f, i)
  }

  lemma UniformOrdersAgree(f: Flow, g: Flow)
    requires Alike(f, g) && UniformPhis(f)
    ensures OrdersAgree(f, g)
  {
    hide Canon, Elements, Unfold, Used, Flow.Valid;
    forall i | 0 <= i < |f.nodes| && Used(f, i) && f.nodes[i].kind.PhiNode?
      ensures i < |g.nodes| && OrderAgrees(f, g, i)
    {
      AlikeNode(f, g, i);
      InputsBelow(f, i);
      var (a, b) := (f.nodes[i].inputs, g.nodes[i].inputs);
      forall k | 0 <= k < |a|
        ensures a[k] < |f.nodes| && b[k] < |f.nodes| && Unfold(f, a[k]) == Unfold(f, b[k])
      {
        SharedInput(f, g, i, k);
        var m :| 0 <= m < |a| && a[m] == b[k];
        assert UniformPhi(f, i);
      }
    }
  }

  function Swapped(a: seq<nat>, k: nat, m: nat): seq<nat>
    requires k < |a| && m < |a|
  {
    a[k := a[m]][m := a[k]]
  }

  lemma SwappedElements(a: seq<nat>, k: nat, m: nat)
    requires k < |a| && m < |a|
    ensures Elements(Swapped(a, k, m)) == Elements(a)
  {
    var b := Swapped(a, k, m);
    forall x | x in a
      ensures x in b
    {
      var j :| 0 <= j < |a| && a[j] == x;
      assert b[if j == k then m else if j == m then k else j] == x;
    }
  }

  /** The flow with two inputs of one phi node exchanged. */
  function Exchanged(f: Flow, i: nat, k: nat, m: nat): Flow
    requires i < |f.nodes| && k < |f.nodes[i].inputs| && m < |f.nodes[i].inputs|
  {
    f.(nodes := f.nodes[i := f.nodes[i].(inputs := Swapped(f.nodes[i].inputs, k, m))])
  }

  lemma ExchangedAlike(f: Flow, i: nat, k: nat, m: nat)
    requires f.Valid() && DistinctInputs(f.nodes)
    requires i < |f.nodes| && k < |f.nodes[i].inputs| && m < |f.nodes[i].inputs| && f.nodes[i].kind.PhiNode?
    ensures Alike(f, Exchanged(f, i, k, m))
  {
    hide Ordered, Elements, Swapped;
    var g := Exchanged(f, i, k, m);
    SwappedElements(f.nodes[i].inputs, k, m);
    SwappedBelow(f, i, k, m);
    assert CanonNode(g.nodes[i]) == CanonNode(f.nodes[i]);
    assert Canon(g.nodes) == Canon(f.nodes);
  }

  lemma SwappedBelow(f: Flow, i: nat, k: nat, m: nat)
    requires f.Valid() && i < |f.nodes| && k < |f.nodes[i].inputs| && m < |f.nodes[i].inputs|
    ensures var b := Swapped(f.nodes[i].inputs, k, m);
      |b| == |f.nodes[i].inputs| && forall j :: 0 <= j < |b| ==> b[j] < i
  {
    InputsBelow(f, i);
  }

  /** Below the phi node nothing changes. */
  lemma {:induction false} SameBelow(f: Flow, g: Flow, i: nat, j: nat)
    requires f.Valid() && g.Valid() && f.code == g.code && f.graph == g.graph && |f.nodes| == |g.nodes| && j < i
    requires i <= |f.nodes| && forall n :: 0 <= n < i ==> f.nodes[n] == g.nodes[n]
    ensures Unfold(f, j) == Unfold(g, j)
    decreases j
  {
    hide Flow.Valid;
    InputsBelow(f, j);
    var a := f.nodes[j].inputs;
    forall k | 0 <= k < |a|
      ensures Unfold(f, a[k]) == Unfold(g, a[k])
    {
      SameBelow(f, g, i, a[k]);
    }
    assert Unfold(f, j).children == Unfold(g, j).children;
  }

  lemma {:induction false} WayDown(f: Flow, w: seq<nat>, i: nat, t: nat)
    requires f.Valid() && Way(f, w, i) && t < |w| - 1
    ensures i < w[t]
    decreases |w| - t
  {
    hide Flow.Valid;
    assert IsInput(f, w[t], w[t + 1]);
    InputsBelow(f, w[t]);
    if t + 1 < |w| - 1 { WayDown(f, w, i, t + 1); }
  }

  /** Above it every tree changes. */
  lemma {:induction false} DiffersAbove(f: Flow, g: Flow, w: seq<nat>, i: nat, t: nat)
    requires f.Valid() && g.Valid() && |f.nodes| == |g.nodes| && Way(f, w, i) && t < |w| && i < |f.nodes|
    requires forall n :: 0 <= n < |f.nodes| && n != i ==> f.nodes[n] == g.nodes[n]
    requires Unfold(f, i) != Unfold(g, i)
    ensures w[t] < |f.nodes| && Unfold(f, w[t]) != Unfold(g, w[t])
    decreases |w| - t
  {
    hide Flow.Valid, Unfold;
    WayInside(f, w, i);
    if t < |w| - 1 {
      DiffersAbove(f, g, w, i, t + 1);
      WayDown(f, w, i, t);
      assert IsInput(f, w[t], w[t + 1]);
      var p :| 0 <= p < |f.nodes[w[t]].inputs| && f.nodes[w[t]].inputs[p] == w[t + 1];
      ChildTree(f, w[t], p);
      ChildTree(g, w[t], p);
    }
  }

  /** Exchanging two inputs with different trees makes the flows differ. */
  lemma ExchangeShows(f: Flow, i: nat, k: nat, m: nat)
    requires f.Valid() && DistinctInputs(f.nodes) && i < |f.nodes| && Used(f, i) && f.nodes[i].kind.PhiNode?
    requires k < |f.nodes[i].inputs| && m < |f.nodes[i].inputs|
    requires f.nodes[i].inputs[k] < |f.nodes| && f.nodes[i].inputs[m] < |f.nodes|
    requires Unfold(f, f.nodes[i].inputs[k]) != Unfold(f, f.nodes[i].inputs[m])
    ensures Alike(f, Exchanged(f, i, k, m)) && !FlowsMatch(f, Exchanged(f, i, k, m))
  {
    hide Canon, Elements, Match, Found, Unfold, Flow.Valid, FlowsMatch;
    var g := Exchanged(f, i, k, m);
    ExchangedAlike(f, i, k, m);
    InputsBelow(f, i);
    SameBelow(f, g, i, f.nodes[i].inputs[m]);
    ChildTree(f, i, k);
    ChildTree(g, i, k);
    assert k != m && g.nodes[i].inputs[k] == f.nodes[i].inputs[m];
    assert Unfold(f, i) != Unfold(g, i);
    var w :| Way(f, w, i);
    DiffersAbove(f, g, w, i, 0);
    var b, n :| 0 <= b < |f.sinks| && 0 <= n < |f.sinks[b]| && f.sinks[b][n] == w[0];
    if FlowsMatch(f, g) {
      SinkMatches(f, g, b, n);
      MatchIffTreesEqual(f, g, w[0], w[0]);
    }
  }

  /** The function matches itself whatever the orders of phi inputs are, exactly if no phi node in use has two inputs
      with different trees. */
  lemma AllOrdersMatchIff(f: Flow)
    requires f.Valid() && AllFound(f) && DistinctInputs(f.nodes)
    ensures (forall g :: Alike(f, g) ==> FlowsMatch(f, g)) <==> UniformPhis(f)
  {
    hide Canon, Elements, Unfold, Used, FlowsMatch, AllFound, Flow.Valid;
    if UniformPhis(f) {
      forall g | Alike(f, g)
        ensures FlowsMatch(f, g)
      {
        UniformOrdersAgree(f, g);
        AgreeingOrdersMatch(f, g);
      }
    }
    if !UniformPhis(f) {
      var i :| 0 <= i < |f.nodes| && Used(f, i) && f.nodes[i].kind.PhiNode? && !UniformPhi(f, i);
      InputsBelow(f, i);
      var a := f.nodes[i].inputs;
      var k, m :| 0 <= k < |a| && 0 <= m < |a| && Unfold(f, a[k]) != Unfold(f, a[m]);
      ExchangeShows(f, i, k, m);
    }
  }
}
