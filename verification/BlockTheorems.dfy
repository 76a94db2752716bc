/** What a finished block graph says about the code it was built from. */
module BlockTheorems {
  import opened Instructions
  import opened MachineCode
  import opened ControlFlowGraphs
  import opened BlockInvariants

  lemma SettledBlock(code: seq<Insn>, g: Graph, i: nat)
    requires Built(code, g) && g.Internal(i)
    ensures Settled(code, g, i)
  {
  }

  // ---- Laminar ranges ----

  predicate Disjoint(a: int, b: int, c: int, d: int) { b < c || d < a }

  /** Two blocks' scanned ranges are disjoint, or the younger one's lies inside the older one's and starts
      later. */
  lemma ScansLaminar(code: seq<Insn>, g: Graph, i: nat, j: nat)
    requires Built(code, g) && i < j && g.Internal(i) && g.Internal(j)
    ensures Disjoint(g.blocks[i].start, Last(code, g, i), g.blocks[j].start, Last(code, g, j))
         || g.blocks[i].start < g.blocks[j].start <= Last(code, g, j) <= Last(code, g, i)
  {
    hide Reachable, HasCreator;
    SettledBlock(code, g, i);
    SettledBlock(code, g, j);
    var (si, sj) := (g.blocks[i].start, g.blocks[j].start);
    assert si != sj;
  }

  /** The same for the recorded ranges. */
  lemma RangesLaminar(code: seq<Insn>, g: Graph, i: nat, j: nat)
    requires Built(code, g) && i < j && g.Internal(i) && g.Internal(j)
    ensures Disjoint(g.blocks[i].start, g.blocks[i].end, g.blocks[j].start, g.blocks[j].end)
         || g.blocks[i].start < g.blocks[j].start <= g.blocks[j].end <= g.blocks[i].end
  {
    hide Reachable, HasCreator;
    ScansLaminar(code, g, i, j);
    SettledBlock(code, g, i);
    SettledBlock(code, g, j);
  }

  /** A block outside the function sits at the end of an earlier block of the function. */
  lemma OutsideAtBranch(code: seq<Insn>, g: Graph, j: nat) returns (i: nat)
    requires Built(code, g) && j < |g.blocks| && !g.Internal(j)
    ensures i < j && g.Internal(i) && j in g.psTable[i].succ
    ensures g.psTable[i].succ[0] == j && g.blocks[j].start == g.blocks[j].end == g.blocks[i].end
  {
    hide Reachable, SettledFrom, NoEarlierStart, PlainBetween, Graph.Dual, Graph.UniqueStarts;
    assert HasCreator(g, j);
    i :| 0 <= i < j && i < |g.psTable| && j in g.psTable[i].succ;
    assert g.Internal(i);
    SettledBlock(code, g, i);
    var k :| 0 <= k < |g.psTable[i].succ| && g.psTable[i].succ[k] == j;
    assert k == 0;
  }

  /** The first-match search finds a block for an instruction exactly when some internal block holds it; what it
      finds is internal, and contains every internal block that holds the instruction. */
  lemma FirstMatchIsOutermost(code: seq<Insn>, g: Graph, idx: nat)
    requires Built(code, g)
    ensures var r := FirstHolding(g.blocks, idx);
      && (r >= 0 <==> exists k :: g.Internal(k) && Holds(g.blocks[k], idx))
      && (r >= 0 ==> g.Internal(r) && Holds(g.blocks[r], idx))
      && (r >= 0 ==> forall k :: g.Internal(k) && Holds(g.blocks[k], idx) ==>
            r <= k && g.blocks[r].start <= g.blocks[k].start && g.blocks[k].end <= g.blocks[r].end)
  {
    hide Grounded, Settled;
    var r := FirstHolding(g.blocks, idx);
    FirstHoldingMeaning(g.blocks, idx);
    if r >= 0 {
      if !g.Internal(r) {
        var i := OutsideAtBranch(code, g, r);
        SettledRange(code, g, i);
        assert false;
      }
      forall k | g.Internal(k) && Holds(g.blocks[k], idx)
        ensures r <= k && g.blocks[r].start <= g.blocks[k].start && g.blocks[k].end <= g.blocks[r].end
      {
        if r < k { RangesLaminar(code, g, r, k); }
      }
    }
  }

  lemma SettledRange(code: seq<Insn>, g: Graph, i: nat)
    requires Built(code, g) && g.Internal(i)
    ensures g.blocks[i].start <= g.blocks[i].end <= Last(code, g, i) < |code|
    ensures g.psTable[i].succ != [] ==> g.blocks[i].end == Last(code, g, i)
  {
    SettledBlock(code, g, i);
  }

  // ---- The blocks simulate the code ----

  /** A place in the block graph: a block and an instruction scanned for it. */
  datatype Place = Place(block: nat, pc: nat)

  ghost predicate InScan(code: seq<Insn>, g: Graph, s: Place) {
    && |g.blocks| <= |g.psTable| && g.Internal(s.block)
    && g.blocks[s.block].start <= s.pc <= Last(code, g, s.block)
  }

  /** Inside a block control goes to the next instruction; at its end, to the start of an internal successor. */
  ghost predicate BlockStep(code: seq<Insn>, g: Graph, s: Place, t: Place) {
    && InScan(code, g, s) && g.Internal(t.block)
    && if s.pc < Last(code, g, s.block) then t == Place(s.block, s.pc + 1)
       else t.block in g.psTable[s.block].succ && t.pc == g.blocks[t.block].start
  }

  ghost predicate IsBlockWalk(code: seq<Insn>, g: Graph, w: seq<Place>) {
    && 0 < |w| && w[0] == Place(0, 0)
    && forall i :: 0 <= i < |w| - 1 ==> BlockStep(code, g, w[i], w[i + 1])
  }

  function Positions(w: seq<Place>): (r: seq<nat>)
    ensures |r| == |w| && forall i :: 0 <= i < |w| ==> r[i] == w[i].pc
  {
    seq(|w|, i requires 0 <= i < |w| => w[i].pc)
  }

  lemma LiftStep(code: seq<Insn>, g: Graph, s: Place, q: nat) returns (t: Place)
    requires Built(code, g) && InScan(code, g, s) && Step(code, s.pc, q)
    ensures t.pc == q && BlockStep(code, g, s, t) && InScan(code, g, t)
  {
    hide Grounded, SettledFrom, NoEarlierStart;
    EntryInternal(code, g);
    SettledBlock(code, g, s.block);
    var row := g.psTable[s.block].succ;
    if s.pc < Last(code, g, s.block) {
      t := Place(s.block, q);
    } else {
      var k := if code[s.pc].kind.Branch? && code[s.pc].kind.Continues() && q == s.pc + 1 then row[1] else row[0];
      t := Place(k, q);
      SettledRange(code, g, k);
    }
  }

  lemma ProjectStep(code: seq<Insn>, g: Graph, s: Place, t: Place)
    requires Built(code, g) && BlockStep(code, g, s, t)
    ensures Step(code, s.pc, t.pc) && InScan(code, g, t)
  {
    hide Grounded, SettledFrom, NoEarlierStart;
    EntryInternal(code, g);
    SettledBlock(code, g, s.block);
    SettledRange(code, g, t.block);
    if s.pc == Last(code, g, s.block) {
      var row := g.psTable[s.block].succ;
      var k :| 0 <= k < |row| && row[k] == t.block;
      LandsApart(g, t.block);
    }
  }

  lemma LandsApart(g: Graph, k: nat)
    requires g.Internal(k)
    ensures forall p :: !Lands(g, k, RUNTIME, p) && !Lands(g, k, EXTERNAL, p)
  {
  }

  /** Every walk over instructions is the projection of a walk over the blocks. */
  lemma {:induction false} LiftWalk(code: seq<Insn>, g: Graph, w: seq<nat>) returns (bw: seq<Place>)
    requires Built(code, g) && IsWalk(code, w)
    ensures IsBlockWalk(code, g, bw) && Positions(bw) == w
    ensures InScan(code, g, bw[|bw| - 1])
    decreases |w|
  {
    hide Grounded;
    if |w| == 1 {
      bw := [Place(0, 0)];
      EntryInternal(code, g);
      SettledRange(code, g, 0);
    } else {
      var v := w[..|w| - 1];
      bw := LiftWalk(code, g, v);
      assert Step(code, w[|w| - 2], w[|w| - 1]);
      var t := LiftStep(code, g, bw[|bw| - 1], w[|w| - 1]);
      bw := bw + [t];
    }
  }

  /** Every walk over the blocks projects to a walk over instructions. */
  lemma {:induction false} ProjectWalk(code: seq<Insn>, g: Graph, bw: seq<Place>)
    requires Built(code, g) && IsBlockWalk(code, g, bw) && 0 < |code|
    ensures IsWalk(code, Positions(bw))
  {
    hide Built;
    forall i | 0 <= i < |bw| - 1
      ensures Step(code, Positions(bw)[i], Positions(bw)[i + 1])
    {
      ProjectStep(code, g, bw[i], bw[i + 1]);
    }
  }

  lemma StartReachable(code: seq<Insn>, g: Graph, i: nat)
    requires Built(code, g) && g.Internal(i)
    ensures g.blocks[i].start < |code| && Reachable(code, g.blocks[i].start)
  {
  }

  lemma EntryInternal(code: seq<Insn>, g: Graph)
    requires Built(code, g)
    ensures g.Internal(0) && g.blocks[0].start == 0
    ensures g.Valid()
  {
  }

  ghost predicate ScannedSomewhere(code: seq<Insn>, g: Graph, p: nat) {
    exists i :: InScan(code, g, Place(i, p))
  }

  /** The instructions scanned for some block are exactly the reachable ones. */
  lemma ScannedIffReachable(code: seq<Insn>, g: Graph, p: nat)
    requires Built(code, g)
    ensures ScannedSomewhere(code, g, p) <==> Reachable(code, p)
  {
    hide Grounded, SettledFrom;
    if Reachable(code, p) {
      var w :| IsWalk(code, w) && w[|w| - 1] == p;
      var bw := LiftWalk(code, g, w);
      assert bw[|bw| - 1] == Place(bw[|bw| - 1].block, p);
    }
    if i: nat :| InScan(code, g, Place(i, p)) {
      SettledBlock(code, g, i);
      StartReachable(code, g, i);
      StraightReachable(code, g.blocks[i].start, p);
    }
  }

  lemma NotStuck(code: seq<Insn>, g: Graph)
    requires Built(code, g)
    ensures !Stuck(code)
  {
    hide Grounded, SettledFrom, Reachable, NoEarlierStart, BranchRow;
    forall p | 0 <= p < |code| && Reachable(code, p)
      ensures !Aborts(code, p)
    {
      ScannedIffReachable(code, g, p);
      var i: nat :| InScan(code, g, Place(i, p));
      SettledBlock(code, g, i);
    }
  }

  // ---- How blocks end ----

  /** The successors of a block that ends in a branch, in order: where the branch goes when taken, and the next
      instruction, if the branch links or has a condition. */
  lemma SuccessorsMeaning(code: seq<Insn>, g: Graph, b: nat)
    requires Built(code, g) && g.Internal(b) && b < |g.psTable| && g.psTable[b].succ != []
    ensures g.blocks[b].end < |code|
    ensures code[g.blocks[b].end].kind.Branch? ==>
      var (e, row) := (g.blocks[b].end, g.psTable[b].succ);
      var (kind, target) := (code[e].kind, code[e].target);
      var named := kind.form.Direct? || kind.form.Conditional?;
      && |row| == (if kind.link || !kind.always then 2 else 1) && row[0] < |g.blocks|
      && (!named ==> g.blocks[row[0]].blockType == RUNTIME && g.blocks[row[0]].start == e)
      && (named && target.Outside? ==> g.blocks[row[0]].blockType == EXTERNAL && g.blocks[row[0]].start == e)
      && (named && target.Inside? ==> g.Internal(row[0]) && g.blocks[row[0]].start == target.position)
      && (named ==> !target.Unresolved?)
      && (kind.link || !kind.always ==> g.Internal(row[1]) && g.blocks[row[1]].start == e + 1 < |code|)
  {
    hide Grounded, SettledFrom, NoEarlierStart, PlainBetween;
    SettledBlock(code, g, b);
  }

  /** Control comes back from a call: a block starts behind every reachable branch that links, and it is the second
      successor of one that ends with the branch. */
  lemma CallComesBack(code: seq<Insn>, g: Graph, p: nat) returns (b: nat, next: nat)
    requires Built(code, g) && p < |code| && Reachable(code, p) && code[p].kind.Branch? && code[p].kind.link
    ensures g.Internal(b) && b < |g.psTable| && g.blocks[b].end == p
    ensures |g.psTable[b].succ| == 2 && g.psTable[b].succ[1] == next
    ensures g.Internal(next) && g.blocks[next].start == p + 1 < |code|
  {
    hide Built, Reachable, TakenLands;
    b := BranchEndsBlock(code, g, p);
    SuccessorsMeaning(code, g, b);
    next := g.psTable[b].succ[1];
  }

  lemma LinkedWordComesBack(code: seq<Insn>, words: seq<Word>, g: Graph, p: nat)
    requires Built(code, g) && Encoded(code, words) && p < |code| && Reachable(code, p)
    requires (TargetBits(words[p]) || RegisterBits(words[p])) && LinkBit(words[p])
    ensures StartsBlock(g, p + 1) && p + 1 < |code|
  {
    hide Built, Reachable, Classify, TargetBits, RegisterBits, LinkBit, ConditionBits;
    BranchInBits(words[p]);
    ContinuesInBits(words[p]);
    var b, next := CallComesBack(code, g, p);
  }

  /** The ending flags of a block.  It ends in a tail call if its last instruction is the function's, a branch that
      neither links nor has a condition nor goes to LR, and goes to some block outside; in a call if that is so or the
      branch links; and it is an exit if that is so or it is a plain return. */
  lemma FlagsMeaning(code: seq<Insn>, g: Graph, b: nat)
    requires Built(code, g) && g.Internal(b) && b < |g.psTable|
    ensures var (block, row) := (g.blocks[b], g.psTable[b].succ);
      && block.end < |code|
      && (row == [] ==> !block.isExit && !block.endsInCall && !block.endsInTailCall)
      && (row != [] ==>
            var kind := code[block.end].kind;
            && (block.endsInTailCall <==>
                  && kind.Branch? && !kind.link && kind.always && !kind.form.ToLR?
                  && block.end + 1 == |code| && exists s: nat :: s in row && !g.Internal(s))
            && (block.endsInCall <==> (kind.Branch? && kind.link) || block.endsInTailCall)
            && (block.isExit <==>
                  (kind.Branch? && !kind.link && kind.always && kind.form.ToLR?) || block.endsInTailCall))
  {
    hide Grounded, SettledFrom, NoEarlierStart, PlainBetween, TakenLands;
    SettledBlock(code, g, b);
    var row := g.psTable[b].succ;
    if row != [] && code[g.blocks[b].end].kind.Branch? {
      SuccessorsMeaning(code, g, b);
      assert |row| == 1 ==> forall s :: s in row <==> s == row[0];
      assert row[0] in row;
    }
  }

  // ---- Falling off the end ----

  /** Every block ends in a branch or falls through to another block, and so is recorded with the range that was
      scanned, exactly when control cannot fall off the end of the function. */
  lemma ClosedIffNotFallingOff(code: seq<Insn>, g: Graph)
    requires Built(code, g)
    ensures (forall i :: g.Internal(i) ==> g.psTable[i].succ != []) <==> !FallsOff(code)
  {
    hide Grounded, Reachable, SettledFrom;
    EntryInternal(code, g);
    if FallsOff(code) {
      ScannedIffReachable(code, g, |code| - 1);
      var i: nat :| InScan(code, g, Place(i, |code| - 1));
      SettledBlock(code, g, i);
      if g.psTable[i].succ != [] { StartReachable(code, g, g.psTable[i].succ[0]); }
      assert g.psTable[i].succ == [];
    }
    if i: nat :| g.Internal(i) && g.psTable[i].succ == [] {
      SettledBlock(code, g, i);
      EntryInternal(code, g);
      ScannedIffReachable(code, g, |code| - 1);
      assert InScan(code, g, Place(i, |code| - 1));
    }
  }

  /** The recorded ranges then cover exactly the reachable instructions. */
  lemma RangesCoverReachable(code: seq<Insn>, g: Graph, p: nat)
    requires Built(code, g) && !FallsOff(code)
    ensures (exists i :: g.Internal(i) && Holds(g.blocks[i], p)) <==> Reachable(code, p)
  {
    hide Grounded, Settled, Reachable;
    EntryInternal(code, g);
    ClosedIffNotFallingOff(code, g);
    ScannedIffReachable(code, g, p);
    forall i | g.Internal(i)
      ensures g.blocks[i].end == Last(code, g, i)
    {
      SettledRange(code, g, i);
    }
    if i: nat :| InScan(code, g, Place(i, p)) {
      assert g.Internal(i) && Holds(g.blocks[i], p);
    }
    if i :| g.Internal(i) && Holds(g.blocks[i], p) {
      assert InScan(code, g, Place(i, p));
    }
  }

  ghost predicate Held(g: Graph, p: nat) { exists i :: g.Internal(i) && Holds(g.blocks[i], p) }

  /** Every block that runs past the last instruction is followed at once by another block, or has only one
      instruction. */
  ghost predicate FallersFollowed(code: seq<Insn>, g: Graph)
    requires |g.blocks| <= |g.psTable|
  {
    forall i :: g.Internal(i) && g.psTable[i].succ == [] && g.blocks[i].start + 1 < |code| ==>
      StartsBlock(g, g.blocks[i].start + 1)
  }

  /** That is exactly when the recorded ranges cover exactly the reachable instructions. */
  lemma RangesCoverIff(code: seq<Insn>, g: Graph)
    requires Built(code, g)
    ensures |g.blocks| <= |g.psTable|
    ensures (forall p: nat :: Held(g, p) <==> Reachable(code, p)) <==> FallersFollowed(code, g)
  {
    hide Grounded, SettledFrom, Reachable;
    EntryInternal(code, g);
    if forall p: nat :: Held(g, p) <==> Reachable(code, p) {
      forall i | g.Internal(i) && g.psTable[i].succ == [] && g.blocks[i].start + 1 < |code|
        ensures StartsBlock(g, g.blocks[i].start + 1)
      {
        FallerFollowed(code, g, i);
      }
    }
    if FallersFollowed(code, g) {
      forall p: nat
        ensures Held(g, p) <==> Reachable(code, p)
      {
        if Held(g, p) { HeldReachable(code, g, p); }
        if Reachable(code, p) { ReachableHeld(code, g, p); }
      }
    }
  }

  /** A reachable branch goes to the position. */
  ghost predicate Targeted(code: seq<Insn>, p: nat) {
    exists q :: BranchesTo(code, q, p)
  }

  ghost predicate BranchesTo(code: seq<Insn>, q: nat, p: nat) {
    q < |code| && Reachable(code, q) && code[q].kind.TakesTarget() && code[q].target == Inside(p)
  }

  /** The code starts there, a reachable branch goes there, or follows one that continues. */
  ghost predicate Entry(code: seq<Insn>, p: nat) {
    || p == 0 || Targeted(code, p)
    || (p <= |code| && Reachable(code, p - 1) && p - 1 < |code| && code[p - 1].kind.Branch?
        && code[p - 1].kind.Continues())
  }

  /** These are exactly the positions at which blocks start. */
  lemma StartsIffEntry(code: seq<Insn>, g: Graph, p: nat)
    requires Built(code, g)
    ensures StartsBlock(g, p) <==> Entry(code, p)
  {
    hide Grounded, SettledFrom, Settled, Reachable;
    EntryInternal(code, g);
    if StartsBlock(g, p) {
      var j: nat :| g.Internal(j) && g.blocks[j].start == p;
      StartIsEntry(code, g, j);
    }
    if Entry(code, p) && p != 0 {
      if q: nat :| BranchesTo(code, q, p) {
        var i := BranchEndsBlock(code, g, q);
        assert g.Internal(g.psTable[i].succ[0]);
      } else {
        var i := BranchEndsBlock(code, g, p - 1);
        assert g.Internal(g.psTable[i].succ[1]);
      }
    }
  }

  /** A reachable branch is the last instruction scanned for some block. */
  lemma BranchEndsBlock(code: seq<Insn>, g: Graph, q: nat) returns (i: nat)
    requires Built(code, g) && Reachable(code, q) && q < |code| && code[q].kind.Branch?
    ensures g.Internal(i) && i < |g.psTable| && BranchRow(code, g, q, g.psTable[i].succ) && q == g.blocks[i].end
  {
    hide Grounded, SettledFrom, Reachable, NoEarlierStart, BranchRow;
    EntryInternal(code, g);
    ScannedIffReachable(code, g, q);
    i :| InScan(code, g, Place(i, q));
    SettledBlock(code, g, i);
    assert q == Last(code, g, i);
  }

  lemma StartIsEntry(code: seq<Insn>, g: Graph, j: nat)
    requires Built(code, g) && g.Internal(j)
    ensures Entry(code, g.blocks[j].start)
  {
    hide SettledFrom, Reachable, NoEarlierStart, Graph.Dual, Graph.UniqueStarts;
    if j > 0 {
      assert HasCreator(g, j);
      var i: nat :| i < j && i < |g.psTable| && j in g.psTable[i].succ;
      assert g.Internal(i);
      SettledBlock(code, g, i);
      var last := Last(code, g, i);
      LastReachable(code, g, i);
      var k :| 0 <= k < |g.psTable[i].succ| && g.psTable[i].succ[k] == j;
      assert code[last].kind.Branch?;
      if k == 0 {
        LandsApart(g, j);
        assert BranchesTo(code, last, g.blocks[j].start);
      }
    }
  }

  lemma LastReachable(code: seq<Insn>, g: Graph, i: nat)
    requires Built(code, g) && g.Internal(i) && i < |g.psTable|
    ensures 0 <= Last(code, g, i) < |code| && Reachable(code, Last(code, g, i))
  {
    hide Grounded, SettledFrom, Reachable, NoEarlierStart, BranchRow;
    EntryInternal(code, g);
    SettledBlock(code, g, i);
    assert InScan(code, g, Place(i, Last(code, g, i)));
    ScannedIffReachable(code, g, Last(code, g, i));
  }

  /** Said of the code alone: nothing is lost if every reachable position from which only plain instructions follow, and
      which itself follows one, is a branch target. */
  lemma TargetedTailCovered(code: seq<Insn>, g: Graph)
    requires Built(code, g)
    requires forall p: nat :: 0 < p < |code| && Reachable(code, p) && PlainBetween(code, p - 1, |code|) ==>
      Targeted(code, p)
    ensures forall p: nat :: Held(g, p) <==> Reachable(code, p)
  {
    hide Grounded, SettledFrom, Reachable, Targeted, NoEarlierStart, BranchRow;
    EntryInternal(code, g);
    RangesCoverIff(code, g);
    forall i | g.Internal(i) && g.psTable[i].succ == [] && g.blocks[i].start + 1 < |code|
      ensures StartsBlock(g, g.blocks[i].start + 1)
    {
      SettledBlock(code, g, i);
      var p := g.blocks[i].start + 1;
      assert InScan(code, g, Place(i, p));
      ScannedIffReachable(code, g, p);
      StartsIffEntry(code, g, p);
    }
  }

  /** And if control can run past the last instruction, that is an entry itself whenever nothing is lost. */
  lemma CoveredNeedsLast(code: seq<Insn>, g: Graph)
    requires Built(code, g) && FallsOff(code) && Held(g, |code| - 1)
    ensures Entry(code, |code| - 1)
  {
    hide Grounded, SettledFrom, Reachable, Entry, NoEarlierStart, BranchRow;
    EntryInternal(code, g);
    var k: nat :| g.Internal(k) && Holds(g.blocks[k], |code| - 1);
    SettledBlock(code, g, k);
    if g.psTable[k].succ != [] { EndsBefore(code, g, k); }
    StartsIffEntry(code, g, |code| - 1);
  }

  lemma HeldReachable(code: seq<Insn>, g: Graph, p: nat)
    requires Built(code, g) && Held(g, p)
    ensures Reachable(code, p)
  {
    hide Grounded, SettledFrom, Reachable;
    EntryInternal(code, g);
    var i: nat :| g.Internal(i) && Holds(g.blocks[i], p);
    SettledRange(code, g, i);
    assert InScan(code, g, Place(i, p));
    ScannedIffReachable(code, g, p);
  }

  lemma FallerFollowed(code: seq<Insn>, g: Graph, i: nat)
    requires Built(code, g) && g.Internal(i) && i < |g.psTable| && g.psTable[i].succ == []
    requires g.blocks[i].start + 1 < |code|
    requires Reachable(code, g.blocks[i].start + 1) ==> Held(g, g.blocks[i].start + 1)
    ensures StartsBlock(g, g.blocks[i].start + 1)
  {
    hide Grounded, SettledFrom, Reachable, NoEarlierStart, BranchRow;
    EntryInternal(code, g);
    SettledBlock(code, g, i);
    var s := g.blocks[i].start;
    assert InScan(code, g, Place(i, s + 1));
    ScannedIffReachable(code, g, s + 1);
    var k: nat :| g.Internal(k) && Holds(g.blocks[k], s + 1);
    SettledBlock(code, g, k);
    if g.blocks[k].start != s + 1 {
      EndsBefore(code, g, k);
      if i < k { ScansLaminar(code, g, i, k); } else { ScansLaminar(code, g, k, i); }
    }
  }

  /** A block with a successor does not end in a plain last instruction. */
  lemma EndsBefore(code: seq<Insn>, g: Graph, k: nat)
    requires Built(code, g) && g.Internal(k) && k < |g.psTable| && g.psTable[k].succ != []
    ensures 0 <= g.blocks[k].end < |code|
    ensures code[g.blocks[k].end].kind.Plain? ==>
      g.blocks[k].end + 1 < |code| && StartsBlock(g, g.blocks[k].end + 1)
  {
    hide Grounded, SettledFrom, Reachable, NoEarlierStart, BranchRow;
    SettledBlock(code, g, k);
    if code[g.blocks[k].end].kind.Plain? {
      var m := g.psTable[k].succ[0];
      assert g.Internal(m) && g.blocks[m].start == g.blocks[k].end + 1;
      StartReachable(code, g, m);
    }
  }

  lemma ReachableHeld(code: seq<Insn>, g: Graph, p: nat)
    requires Built(code, g) && Reachable(code, p) && |g.blocks| <= |g.psTable| && FallersFollowed(code, g)
    ensures Held(g, p)
  {
    hide Grounded, SettledFrom, Reachable, NoEarlierStart, BranchRow, FallersFollowed;
    ScannedIffReachable(code, g, p);
    var i: nat :| InScan(code, g, Place(i, p));
    SettledBlock(code, g, i);
    if g.psTable[i].succ != [] {
      assert Holds(g.blocks[i], p);
    } else {
      TailHeld(code, g, i, p);
    }
  }

  /** Where only plain instructions follow, block after block up to the last. */
  lemma {:induction false} TailHeld(code: seq<Insn>, g: Graph, k: nat, p: nat)
    requires Built(code, g) && |g.blocks| <= |g.psTable| && FallersFollowed(code, g) && g.Internal(k)
    requires g.blocks[k].start <= p < |code|
    requires forall q :: g.blocks[k].start <= q < |code| ==> code[q].kind.Plain?
    ensures Held(g, p)
    decreases p - g.blocks[k].start
  {
    hide Grounded, SettledFrom, Reachable, NoEarlierStart, BranchRow, PlainBetween;
    SettledBlock(code, g, k);
    var s := g.blocks[k].start;
    if p <= g.blocks[k].end {
      assert Holds(g.blocks[k], p);
    } else {
      if g.psTable[k].succ != [] { EndsBefore(code, g, k); }
      var m: nat :| g.Internal(m) && g.blocks[m].start == g.blocks[k].end + 1;
      TailHeld(code, g, m, p);
    }
  }

  /** Without that condition they need not: two plain instructions give one block, and it holds only the first. */
  lemma FallingOffLosesCode(insn: Insn, g: Graph)
    requires insn.kind.Plain? && Built([insn, insn], g)
    ensures Reachable([insn, insn], 1) && !exists i :: g.Internal(i) && Holds(g.blocks[i], 1)
  {
    var code := [insn, insn];
    EntryReachable(code);
    StepReachable(code, 0, 1);
    if i: nat :| g.Internal(i) && Holds(g.blocks[i], 1) {
      OnlyEntry(code, g, i);
      SettledBlock(code, g, i);
    }
  }

  /** Without branches there is one block. */
  lemma {:induction false} OnlyEntry(code: seq<Insn>, g: Graph, i: nat)
    requires Built(code, g) && PlainBetween(code, 0, |code|) && i < |g.blocks|
    ensures i == 0
  {
    hide Reachable, SettledFrom;
    if i > 0 {
      assert HasCreator(g, i);
      var k: nat :| k < i && k < |g.psTable| && i in g.psTable[k].succ;
      OnlyEntry(code, g, k);
      SettledBlock(code, g, k);
    }
  }

  // ---- Size ----

  ghost function InternalBlocks(g: Graph): set<nat> {
    set i: nat | i < |g.blocks| && g.blocks[i].blockType == INTERNAL
  }

  /** An injective map's domain is no larger than its range. */
  lemma {:induction false} Pigeonhole(m: map<nat, nat>, range: set<nat>)
    requires m.Values <= range
    requires forall a, b :: a in m && b in m && m[a] == m[b] ==> a == b
    ensures |m| <= |range|
    decreases |m|
  {
    if m != map[] {
      var a :| a in m;
      var m' := m - {a};
      assert m[a] in m.Values;
      assert m'.Keys == m.Keys - {a};
      forall v | v in m'.Values
        ensures v in range - {m[a]}
      {
        var b :| b in m' && m'[b] == v;
        assert m[b] in m.Values;
      }
      Pigeonhole(m', range - {m[a]});
    }
  }

  ghost function Below(n: nat): (s: set<nat>)
    ensures |s| == n && forall p: nat :: p in s <==> p < n
  {
    if n == 0 then {} else Below(n - 1) + {n - 1}
  }

  /** There are at most as many internal blocks as instructions, and at most twice as many blocks. */
  lemma FewBlocks(code: seq<Insn>, g: Graph)
    requires Built(code, g)
    ensures |InternalBlocks(g)| <= |code|
    ensures |g.blocks| <= 2 * |code|
  {
    hide Reachable, HasCreator, Settled;
    var starts := map i | i in InternalBlocks(g) :: g.blocks[i].start;
    forall v | v in starts.Values
      ensures v < |code|
    {
      var i :| i in starts && starts[i] == v;
      assert g.Internal(i);
    }
    forall a, b | a in starts && b in starts && starts[a] == starts[b]
      ensures a == b
    {
      assert g.Internal(a) && g.Internal(b);
    }
    Pigeonhole(starts, Below(|code|));
    assert |starts| == |starts.Keys| && starts.Keys == InternalBlocks(g);
    OutsideBlocks(code, g);
    var all := Below(|g.blocks|);
    assert all == InternalBlocks(g) + (all - InternalBlocks(g));
  }

  ghost predicate EnteredFrom(g: Graph, pred: seq<nat>, j: nat) {
    |pred| == 1 && g.Internal(pred[0]) && pred[0] < |g.psTable|
    && g.psTable[pred[0]].succ != [] && g.psTable[pred[0]].succ[0] == j
  }

  lemma OutsideRow(g: Graph, j: nat)
    requires g.Valid() && j < |g.blocks| && !g.Internal(j)
    ensures |g.psTable[j].pred| == 1
  {
  }

  /** Each block outside the function has an internal block to itself. */
  lemma OutsideBlocks(code: seq<Insn>, g: Graph)
    requires Built(code, g)
    ensures |Below(|g.blocks|) - InternalBlocks(g)| <= |InternalBlocks(g)|
  {
    hide Grounded, SettledFrom, Settled, Graph.Dual, Graph.UniqueStarts;
    EntryInternal(code, g);
    var outside := Below(|g.blocks|) - InternalBlocks(g);
    forall j | j in outside
      ensures EnteredFrom(g, g.psTable[j].pred, j)
    {
      var i := OutsideAtBranch(code, g, j);
      g.EdgeBothWays(i, j);
      OutsideRow(g, j);
    }
    var origin := map j | j in outside :: g.psTable[j].pred[0];
    forall v | v in origin.Values
      ensures v in InternalBlocks(g)
    {
      var j :| j in origin && origin[j] == v;
      assert EnteredFrom(g, g.psTable[j].pred, j);
    }
    forall a, b | a in origin && b in origin && origin[a] == origin[b]
      ensures a == b
    {
      assert EnteredFrom(g, g.psTable[a].pred, a) && EnteredFrom(g, g.psTable[b].pred, b);
    }
    Pigeonhole(origin, InternalBlocks(g));
    assert |origin| == |origin.Keys| && origin.Keys == outside;
  }
}
