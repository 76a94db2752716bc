/** Basic blocks and the predecessor/successor table (include/ppc2cpp/control_flow/ControlFlowGraph.hpp). */
module ControlFlowGraphs {

  datatype BlockType = INTERNAL | EXTERNAL | RUNTIME

  datatype BasicBlock = BasicBlock(
    start: nat, end: nat, blockType: BlockType,
    isExit: bool, endsInCall: bool, endsInTailCall: bool)

  function NewBlock(start: nat, blockType: BlockType): BasicBlock {
    BasicBlock(start, start, blockType, false, false, false)
  }

  datatype PSEntry = PSEntry(pred: seq<nat>, succ: seq<nat>)

  predicate AllBelow(s: seq<nat>, n: nat) {
    forall k :: 0 <= k < |s| ==> s[k] < n
  }

  /** The two tables of a graph, as a value. */
  datatype Graph = Graph(blocks: seq<BasicBlock>, psTable: seq<PSEntry>) {

    predicate Internal(i: int) {
      0 <= i < |blocks| && blocks[i].blockType == INTERNAL
    }

    /** Every table entry is a block; rows past the last block are empty. */
    ghost predicate WellIndexed() {
      && |blocks| <= |psTable|
      && (forall i {:trigger psTable[i]} :: 0 <= i < |psTable| ==>
            AllBelow(psTable[i].succ, |blocks|) && AllBelow(psTable[i].pred, |blocks|))
      && (forall i {:trigger psTable[i]} :: |blocks| <= i < |psTable| ==> psTable[i] == PSEntry([], []))
    }

    /** Each edge is recorded as often in its source's row as in its target's. */
    ghost predicate Dual() {
      forall i: nat, j: nat ::
        i < |psTable| && j < |psTable| ==> SuccCount(i, j) == PredCount(i, j)
    }

    /** How often `j` is listed as a successor of `i`. */
    function SuccCount(i: nat, j: nat): nat
      requires i < |psTable|
    {
      multiset(psTable[i].succ)[j]
    }

    /** How often `i` is listed as a predecessor of `j`. */
    function PredCount(i: nat, j: nat): nat
      requires j < |psTable|
    {
      multiset(psTable[j].pred)[i]
    }

    /** Blocks outside the function are entered once and never left. */
    ghost predicate OutsideIsLeaf() {
      && |blocks| <= |psTable|
      && forall j {:trigger psTable[j]} :: 0 <= j < |blocks| && blocks[j].blockType != INTERNAL ==>
           psTable[j].succ == [] && |psTable[j].pred| == 1
    }

    ghost predicate UniqueStarts() {
      forall i, j :: Internal(i) && Internal(j) && blocks[i].start == blocks[j].start ==> i == j
    }

    ghost predicate Valid() {
      WellIndexed() && Dual() && OutsideIsLeaf() && UniqueStarts()
    }

    ghost predicate HasEdge(i: nat, j: nat) {
      i < |psTable| && j in psTable[i].succ
    }

    /** A path over internal blocks from the entry block. */
    ghost predicate Path(w: seq<nat>) {
      && 0 < |w| && w[0] == 0 && Internal(0)
      && forall i :: 0 <= i < |w| - 1 ==> InnerEdge(w[i], w[i + 1])
    }

    ghost predicate InnerEdge(i: nat, j: nat) { HasEdge(i, j) && Internal(j) }

    ghost predicate Entered(b: nat) {
      exists w :: Path(w) && w[|w| - 1] == b
    }

    lemma EntryEntered()
      requires Internal(0)
      ensures Entered(0)
    {
      assert Path([0]);
    }

    lemma EnteredPath(b: nat) returns (w: seq<nat>)
      requires Entered(b)
      ensures Path(w) && w[|w| - 1] == b
    {
      w :| Path(w) && w[|w| - 1] == b;
    }

    lemma EdgeEntered(b: nat, s: nat)
      requires Entered(b) && HasEdge(b, s) && Internal(s)
      ensures Entered(s)
    {
      var w :| Path(w) && w[|w| - 1] == b;
      var w' := w + [s];
      assert InnerEdge(b, s);
      assert Path(w') && w'[|w'| - 1] == s;
    }

    /** A worklist after inserting the internal successors that are not in it yet, one after the other, in front. */
    function Pushed(worklist: seq<nat>, succ: seq<nat>): seq<nat> {
      if succ == [] then worklist
      else
        var wl := Pushed(worklist, succ[..|succ| - 1]);
        var s := succ[|succ| - 1];
        if Internal(s) && s !in wl then [s] + wl else wl
    }

    ghost predicate Distinct(worklist: seq<nat>) {
      && (forall i :: 0 <= i < |worklist| ==> Internal(worklist[i]))
      && (forall i, j :: 0 <= i < j < |worklist| ==> worklist[i] != worklist[j])
    }

    lemma TailDistinct(worklist: seq<nat>)
      requires Distinct(worklist) && worklist != []
      ensures Distinct(worklist[1..]) && worklist[0] !in worklist[1..] && Internal(worklist[0])
    {
    }

    lemma {:induction false} PushedDistinct(worklist: seq<nat>, succ: seq<nat>)
      requires Distinct(worklist)
      ensures Distinct(Pushed(worklist, succ))
      decreases |succ|
    {
      if succ != [] {
        PushedDistinct(worklist, succ[..|succ| - 1]);
        var (wl, s) := (Pushed(worklist, succ[..|succ| - 1]), succ[|succ| - 1]);
        assert s !in wl && Internal(s) ==> Distinct([s] + wl);
      }
    }

    lemma {:induction false} PushedMembers(worklist: seq<nat>, succ: seq<nat>)
      ensures var r := Pushed(worklist, succ);
        && (forall k :: k in worklist ==> k in r)
        && (forall k :: k in r ==> k in worklist || k in succ)
        && (forall k :: k in succ && Internal(k) ==> k in r)
        && |worklist| <= |r| && r[|r| - |worklist|..] == worklist
      decreases |succ|
    {
      if succ != [] {
        var init := succ[..|succ| - 1];
        PushedMembers(worklist, init);
        assert succ == init + [succ[|succ| - 1]];
      }
    }

    function WithEnd(i: nat, end: nat): Graph
      requires i < |blocks|
    {
      this.(blocks := blocks[i := blocks[i].(end := end)])
    }

    function WithBlock(b: BasicBlock): Graph {
      this.(blocks := blocks + [b])
    }

    function WithFlags(i: nat, flags: (bool, bool, bool)): Graph
      requires i < |blocks|
    {
      var b := blocks[i].(isExit := flags.0, endsInCall := flags.1, endsInTailCall := flags.2);
      this.(blocks := blocks[i := b])
    }

    function WithRow(): Graph {
      this.(psTable := psTable + [PSEntry([], [])])
    }

    function WithEdge(i: nat, j: nat): Graph
      requires i < |psTable| && j < |psTable|
    {
      var t := psTable[i := psTable[i].(succ := psTable[i].succ + [j])];
      this.(psTable := t[j := t[j].(pred := t[j].pred + [i])])
    }

    lemma EdgeKeepsDual(i: nat, j: nat)
      requires Dual() && i < |psTable| && j < |psTable|
      ensures WithEdge(i, j).Dual()
    {
      var g := WithEdge(i, j);
      var t := g.psTable;
      forall a: nat, b: nat | a < |t| && b < |t|
        ensures g.SuccCount(a, b) == g.PredCount(a, b)
      {
        assert SuccCount(a, b) == PredCount(a, b);
        assert t[a].succ == if a == i then psTable[i].succ + [j] else psTable[a].succ;
        assert t[b].pred == if b == j then psTable[j].pred + [i] else psTable[b].pred;
      }
    }

    lemma RowKeepsDual()
      requires WellIndexed() && Dual()
      ensures WithRow().Dual()
    {
      var g := WithRow();
      var t := g.psTable;
      forall a: nat, b: nat | a < |t| && b < |t|
        ensures g.SuccCount(a, b) == g.PredCount(a, b)
      {
        if a < |psTable| && b < |psTable| {
          assert SuccCount(a, b) == PredCount(a, b);
          assert t[a] == psTable[a] && t[b] == psTable[b];
        } else if a < |psTable| {
          assert t[a] == psTable[a] && b !in t[a].succ;
        } else if b < |psTable| {
          assert t[b] == psTable[b] && a !in t[b].pred;
        }
      }
    }

    /** An edge between two blocks of the function, after a new row has or has not been pushed. */
    lemma EdgeKeepsValid(i: nat, j: nat)
      requires Valid() && Internal(i) && Internal(j)
      ensures WithEdge(i, j).Valid()
    {
      EdgeKeepsDual(i, j);
    }

    lemma RowKeepsValid()
      requires Valid()
      ensures WithRow().Valid()
    {
      RowKeepsDual();
    }

    lemma EndKeepsValid(i: nat, end: nat)
      requires Valid() && i < |blocks|
      ensures WithEnd(i, end).Valid()
    {
      SameRowsSameDual(this, WithEnd(i, end));
    }

    /** A new block, its row and the edge to it.  The row the edge is written to is the new block's,
        which is not always the last one. */
    lemma NewBlockKeepsValid(i: nat, b: BasicBlock)
      requires Valid() && Internal(i)
      requires b.blockType == INTERNAL ==> forall k :: Internal(k) ==> blocks[k].start != b.start
      ensures WithBlock(b).WithRow().WithEdge(i, |blocks|).Valid()
    {
      var g := WithRow();
      RowKeepsDual();
      assert g.psTable[|blocks|] == PSEntry([], []);
      g.EdgeKeepsDual(i, |blocks|);
      var h := WithBlock(b).WithRow().WithEdge(i, |blocks|);
      assert h.psTable == g.WithEdge(i, |blocks|).psTable;
      SameRowsSameDual(g.WithEdge(i, |blocks|), h);
    }

    static lemma SameRowsSameDual(g: Graph, h: Graph)
      requires g.Dual() && g.psTable == h.psTable
      ensures h.Dual()
    {
      forall a: nat, b: nat | a < |h.psTable| && b < |h.psTable|
        ensures h.SuccCount(a, b) == h.PredCount(a, b)
      {
        assert g.SuccCount(a, b) == g.PredCount(a, b);
      }
    }

    /** In a valid graph, an edge is in the predecessor row of its target. */
    lemma EdgeBothWays(i: nat, j: nat)
      requires Valid() && i < |blocks| && j < |blocks|
      ensures j in psTable[i].succ <==> i in psTable[j].pred
    {
      assert SuccCount(i, j) == PredCount(i, j);
      assert j in psTable[i].succ <==> j in multiset(psTable[i].succ);
      assert i in psTable[j].pred <==> i in multiset(psTable[j].pred);
    }
  }

  class ControlFlowGraph {
    var blocks: seq<BasicBlock>
    var psTable: seq<PSEntry>

    constructor ()
      ensures blocks == [] && psTable == []
    {
      blocks, psTable := [], [];
    }

    function Value(): Graph
      reads this
    {
      Graph(blocks, psTable)
    }

    method Init()
      requires blocks == [] && psTable == []
      modifies this
      ensures Value() == Graph([NewBlock(0, INTERNAL)], [PSEntry([], [])])
      ensures Value().Valid()
    {
      blocks := blocks + [NewBlock(0, INTERNAL)];
      psTable := psTable + [PSEntry([], [])];
    }

    /** The first block, of any type, whose range holds the instruction; -1 if none. */
    method FindBlockByInsnIdx(idx: nat) returns (r: int)
      ensures r == FirstHolding(blocks, idx)
    {
      for i := 0 to |blocks|
        invariant forall k :: 0 <= k < i ==> !Holds(blocks[k], idx)
      {
        if blocks[i].start <= idx <= blocks[i].end {
          FirstHoldingIs(blocks, idx, i);
          return i;
        }
      }
      FirstHoldingIs(blocks, idx, |blocks|);
      return -1;
    }

    method FindBlockByPosition(branchTarget: nat, blockType: BlockType) returns (r: int)
      ensures r == FirstStarting(blocks, branchTarget, blockType)
    {
      FirstStartingMeaning(blocks, branchTarget, blockType);
      for i := 0 to |blocks|
        invariant forall k :: 0 <= k < i ==> !Starts(blocks[k], branchTarget, blockType)
      {
        if blocks[i].start == branchTarget && blocks[i].blockType == blockType {
          return i;
        }
      }
      return -1;
    }

    method FindInternalBlockByPosition(branchTarget: nat) returns (r: int)
      ensures r == FirstStarting(blocks, branchTarget, INTERNAL)
    {
      r := FindBlockByPosition(branchTarget, INTERNAL);
    }

    /** The index of the successor if a block was created for it, else -1.  In the second case the surplus
        row is pushed all the same. */
    method TryCreateSuccessorInternal(origin: nat, branchPos: nat, targetPosition: nat)
      returns (r: int)
      requires Value().Valid() && Value().Internal(origin)
      modifies this
      ensures Value().Valid()
      ensures var k := FirstStarting(old(blocks), targetPosition, INTERNAL);
        if k >= 0 then
          r == -1 && Value() == old(Value()).WithEnd(origin, branchPos).WithRow().WithEdge(origin, k)
        else
          r == |old(blocks)|
          && Value() == old(Value()).WithEnd(origin, branchPos)
                        .WithBlock(NewBlock(targetPosition, INTERNAL)).WithRow().WithEdge(origin, r)
    {
      Value().EndKeepsValid(origin, branchPos);
      blocks := blocks[origin := blocks[origin].(end := branchPos)];
      ghost var g := Value();
      FirstStartingSame(old(blocks), blocks, targetPosition, INTERNAL);
      FirstStartingMeaning(blocks, targetPosition, INTERNAL);
      var existing := FindInternalBlockByPosition(targetPosition);
      if existing >= 0 {
        g.RowKeepsValid();
        g.WithRow().EdgeKeepsValid(origin, existing);
        psTable := psTable + [PSEntry([], [])];
        AddEdge(origin, existing);
        r := -1;
      } else {
        assert forall k :: 0 <= k < |blocks| ==> !Starts(blocks[k], targetPosition, INTERNAL);
        g.NewBlockKeepsValid(origin, NewBlock(targetPosition, INTERNAL));
        r := |blocks|;
        blocks := blocks + [NewBlock(targetPosition, INTERNAL)];
        psTable := psTable + [PSEntry([], [])];
        AddEdge(origin, r);
      }
    }

    /** The two pushes that record an edge. */
    method AddEdge(origin: nat, target: nat)
      requires origin < |psTable| && target < |psTable|
      modifies `psTable
      ensures Value() == old(Value()).WithEdge(origin, target)
    {
      psTable := psTable[origin := psTable[origin].(succ := psTable[origin].succ + [target])];
      psTable := psTable[target := psTable[target].(pred := psTable[target].pred + [origin])];
    }

    method CreateSuccessorOutside(origin: nat, branchPos: nat, blockType: BlockType)
      requires Value().Valid() && Value().Internal(origin) && blockType != INTERNAL
      modifies this
      ensures Value().Valid()
      ensures Value() == old(Value()).WithEnd(origin, branchPos)
                         .WithBlock(NewBlock(branchPos, blockType)).WithRow().WithEdge(origin, |old(blocks)|)
    {
      Value().EndKeepsValid(origin, branchPos);
      blocks := blocks[origin := blocks[origin].(end := branchPos)];
      Value().NewBlockKeepsValid(origin, NewBlock(branchPos, blockType));
      var blockIdx := |blocks|;
      blocks := blocks + [NewBlock(branchPos, blockType)];
      psTable := psTable + [PSEntry([], [])];
      AddEdge(origin, blockIdx);
    }

    method CreateSuccessorFallthrough(origin: nat, pos: nat, fallthrough: nat)
      requires Value().Valid() && Value().Internal(origin) && Value().Internal(fallthrough)
      modifies this
      ensures Value().Valid()
      ensures Value() == old(Value()).WithEnd(origin, pos).WithEdge(origin, fallthrough)
    {
      Value().EndKeepsValid(origin, pos);
      blocks := blocks[origin := blocks[origin].(end := pos)];
      Value().EdgeKeepsValid(origin, fallthrough);
      AddEdge(origin, fallthrough);
    }

    /** The flag assignments that end the scan of a block. */
    method MarkEnding(b: nat, isExit: bool, endsInCall: bool, endsInTailCall: bool)
      requires b < |blocks|
      modifies `blocks
      ensures Value() == old(Value()).WithFlags(b, (isExit, endsInCall, endsInTailCall))
    {
      blocks := blocks[b := blocks[b].(
        isExit := isExit, endsInCall := endsInCall, endsInTailCall := endsInTailCall)];
    }

    method HasExternalSuccessor(b: nat) returns (r: bool)
      requires Value().WellIndexed() && b < |psTable|
      ensures r <==> exists k :: 0 <= k < |psTable[b].succ| && blocks[psTable[b].succ[k]].blockType != INTERNAL
    {
      for i := 0 to |psTable[b].succ|
        invariant forall k :: 0 <= k < i ==> blocks[psTable[b].succ[k]].blockType == INTERNAL
      {
        if blocks[psTable[b].succ[i]].blockType != INTERNAL { return true; }
      }
      return false;
    }
  }

  /** Specification of the search for a block by its start; -1 if there is none. */
  function FirstStarting(blocks: seq<BasicBlock>, position: nat, blockType: BlockType): (r: int)
    ensures -1 <= r < |blocks|
  {
    if blocks == [] then -1
    else
      var (r, last) := (FirstStarting(blocks[..|blocks| - 1], position, blockType), blocks[|blocks| - 1]);
      if r >= 0 then r else if last.start == position && last.blockType == blockType then |blocks| - 1 else -1
  }

  predicate Starts(b: BasicBlock, position: nat, blockType: BlockType) {
    b.start == position && b.blockType == blockType
  }

  lemma {:induction false} FirstStartingMeaning(blocks: seq<BasicBlock>, position: nat, blockType: BlockType)
    ensures var r := FirstStarting(blocks, position, blockType);
      && (r >= 0 ==> Starts(blocks[r], position, blockType))
      && (forall k :: 0 <= k < (if r >= 0 then r else |blocks|) ==> !Starts(blocks[k], position, blockType))
    decreases |blocks|
  {
    if blocks != [] { FirstStartingMeaning(blocks[..|blocks| - 1], position, blockType); }
  }

  /** Only starts and types matter to the search. */
  lemma FirstStartingSame(blocks: seq<BasicBlock>, others: seq<BasicBlock>, position: nat, blockType: BlockType)
    requires |blocks| == |others|
    requires forall k {:trigger blocks[k]} :: 0 <= k < |blocks| ==>
               blocks[k].start == others[k].start && blocks[k].blockType == others[k].blockType
    ensures FirstStarting(blocks, position, blockType) == FirstStarting(others, position, blockType)
  {
    FirstStartingMeaning(blocks, position, blockType);
    FirstStartingMeaning(others, position, blockType);
    assert forall k :: 0 <= k < |blocks| ==>
      (Starts(blocks[k], position, blockType) <==> Starts(others[k], position, blockType));
  }

  predicate Holds(b: BasicBlock, idx: nat) { b.start <= idx <= b.end }

  /** Specification of the first-match search. */
  function FirstHolding(blocks: seq<BasicBlock>, idx: nat): (r: int)
    ensures -1 <= r < |blocks|
  {
    if blocks == [] then -1
    else
      var r := FirstHolding(blocks[..|blocks| - 1], idx);
      if r >= 0 then r else if Holds(blocks[|blocks| - 1], idx) then |blocks| - 1 else -1
  }

  /** It is the least index that holds the instruction, and -1 exactly when there is none. */
  lemma {:induction false} FirstHoldingIs(blocks: seq<BasicBlock>, idx: nat, i: nat)
    requires i <= |blocks| && (i < |blocks| ==> Holds(blocks[i], idx))
    requires forall k :: 0 <= k < i ==> !Holds(blocks[k], idx)
    ensures FirstHolding(blocks, idx) == if i < |blocks| then i else -1
    decreases |blocks|
  {
    if blocks != [] {
      var init := blocks[..|blocks| - 1];
      FirstHoldingIs(init, idx, if i < |blocks| then i else i - 1);
    }
  }

  lemma {:induction false} FirstHoldingMeaning(blocks: seq<BasicBlock>, idx: nat)
    ensures var r := FirstHolding(blocks, idx);
      && (r >= 0 ==> Holds(blocks[r], idx))
      && (forall k :: 0 <= k < (if r >= 0 then r else |blocks|) ==> !Holds(blocks[k], idx))
    decreases |blocks|
  {
    if blocks != [] {
      FirstHoldingMeaning(blocks[..|blocks| - 1], idx);
    }
  }
}
