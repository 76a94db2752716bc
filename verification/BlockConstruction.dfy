/** The block graph of a function, as a function of its code: what the recursive discovery makes, step by step, and
    that it satisfies the block invariants. */
module BlockConstruction {
  import opened Wrappers
  import opened Instructions
  import opened MachineCode
  import opened ControlFlowGraphs
  import opened BlockInvariants
  import opened BlockTheorems

  /** The positions at which no internal block starts yet. */
  ghost function Unused(code: seq<Insn>, g: Graph): set<int> {
    set p | 0 <= p < |code| && !StartsBlock(g, p)
  }

  /** Blocks are only added; none changes its start or type. */
  ghost predicate Extends(g: Graph, h: Graph) {
    && |g.blocks| <= |g.psTable| && |h.blocks| <= |h.psTable| && |g.blocks| <= |h.blocks|
    && forall i {:trigger h.blocks[i]} :: 0 <= i < |g.blocks| ==>
         h.blocks[i].start == g.blocks[i].start && h.blocks[i].blockType == g.blocks[i].blockType
  }

  lemma ExtendsUnused(code: seq<Insn>, g: Graph, h: Graph)
    requires Extends(g, h)
    ensures Unused(code, h) <= Unused(code, g)
  {
    forall p | StartsBlock(g, p)
      ensures StartsBlock(h, p)
    {
      var i :| g.Internal(i) && g.blocks[i].start == p;
      assert h.blocks[i].start == p;
      assert h.Internal(i);
    }
  }

  /** The state after block `b`, ending at `pc`, got the successor `k`: blocks made for it are settled. */
  ghost predicate Followed(code: seq<Insn>, g: Graph, h: Graph, b: nat, pc: nat, k: nat) {
    && Grounded(code, h) && Grown(g, h, b) && b < |g.blocks|
    && h.blocks[b] == g.blocks[b].(end := pc)
    && h.psTable[b].succ == g.psTable[b].succ + [k]
    && SettledFrom(code, h, |g.blocks|, |h.blocks|)
    && Unused(code, h) <= Unused(code, g)
  }

  /** Pushing the edge to an existing block. */
  lemma LinkExisting(code: seq<Insn>, g: Graph, h: Graph, b: nat, pc: nat, k: nat)
    requires Grounded(code, g) && g.Internal(b) && g.Internal(k) && h.Valid()
    requires h == g.WithEnd(b, pc).WithRow().WithEdge(b, k) || h == g.WithEnd(b, pc).WithEdge(b, k)
    ensures Followed(code, g, h, b, pc, k)
  {
    hide Reachable, Settled, Graph.Dual, Graph.UniqueStarts, Graph.OutsideIsLeaf;
    CreatorsStay(g, h);
    forall i | h.Internal(i)
      ensures h.blocks[i].start < |code| && Reachable(code, h.blocks[i].start)
    {
      assert g.Internal(i);
    }
    ExtendsUnused(code, g, h);
  }

  lemma CreatorsStay(g: Graph, h: Graph)
    requires |g.blocks| <= |g.psTable| <= |h.psTable|
    requires forall j :: 0 < j < |g.blocks| ==> HasCreator(g, j)
    requires forall i :: 0 <= i < |g.psTable| ==> g.psTable[i].succ <= h.psTable[i].succ
    ensures forall j :: 0 < j < |g.blocks| ==> HasCreator(h, j)
  {
    forall j | 0 < j < |g.blocks|
      ensures HasCreator(h, j)
    {
      assert HasCreator(g, j);
      var i :| 0 <= i < j && i < |g.psTable| && j in g.psTable[i].succ;
      assert j in h.psTable[i].succ;
    }
  }

  /** Pushing a new block and the edge to it. */
  lemma LinkNew(code: seq<Insn>, g: Graph, h: Graph, b: nat, pc: nat, k: BasicBlock)
    requires Grounded(code, g) && g.Internal(b) && h.Valid()
    requires k == NewBlock(k.start, k.blockType)
    requires k.blockType == INTERNAL ==> k.start < |code| && Reachable(code, k.start)
    requires h == g.WithEnd(b, pc).WithBlock(k).WithRow().WithEdge(b, |g.blocks|)
    ensures Grounded(code, h)
    ensures LinkedNew(g, h, b, pc, k)
    ensures Unused(code, h) <= Unused(code, g)
  {
    hide Reachable, Settled, Graph.Valid;
    assert g.WellIndexed() by { ValidParts(g); }
    LinkNewTables(g, h, b, pc, k);
    CreatorsStay(g, h);
    assert HasCreator(h, |g.blocks|);
    forall i | h.Internal(i)
      ensures h.blocks[i].start < |code| && Reachable(code, h.blocks[i].start)
    {
      assert i < |g.blocks| ==> g.Internal(i);
    }
    ExtendsUnused(code, g, h);
  }

  lemma ValidParts(g: Graph)
    requires g.Valid()
    ensures g.WellIndexed()
  {
  }

  ghost predicate LinkedNew(g: Graph, h: Graph, b: nat, pc: nat, k: BasicBlock) {
    && Grown(g, h, b) && b < |g.blocks|
    && h.blocks[b] == g.blocks[b].(end := pc)
    && h.psTable[b].succ == g.psTable[b].succ + [|g.blocks|]
    && |h.blocks| == |g.blocks| + 1 && h.blocks[|g.blocks|] == k && h.psTable[|g.blocks|].succ == []
  }

  lemma LinkNewTables(g: Graph, h: Graph, b: nat, pc: nat, k: BasicBlock)
    requires g.WellIndexed() && b < |g.blocks|
    requires h == g.WithEnd(b, pc).WithBlock(k).WithRow().WithEdge(b, |g.blocks|)
    ensures LinkedNew(g, h, b, pc, k)
    ensures forall i :: 0 <= i < |g.psTable| ==> g.psTable[i].succ <= h.psTable[i].succ
    ensures |g.psTable| <= |h.psTable|
    ensures |g.blocks| in h.psTable[b].succ
  {
    var n := |g.blocks|;
    var t := g.WithRow().psTable;
    assert t[n] == PSEntry([], []);
    var t1 := t[b := t[b].(succ := t[b].succ + [n])];
    assert h.psTable == t1[n := t1[n].(pred := t1[n].pred + [b])];
    assert h.psTable[b].succ == g.psTable[b].succ + [n];
    assert n == h.psTable[b].succ[|g.psTable[b].succ|];
  }

  /** Composing the creation of a block with what its own scan did. */
  lemma FollowNew(code: seq<Insn>, g: Graph, h1: Graph, h2: Graph, b: nat, pc: nat)
    requires Grounded(code, h2) && exists k: BasicBlock :: LinkedNew(g, h1, b, pc, k)
    requires Grown(h1, h2, |g.blocks|) && SettledFrom(code, h2, |g.blocks|, |h2.blocks|)
    requires Unused(code, h2) <= Unused(code, g)
    ensures Followed(code, g, h2, b, pc, |g.blocks|)
  {
    assert h2.blocks[b] == h1.blocks[b] && h2.psTable[b].succ == h1.psTable[b].succ;
  }

  // ---- The construction ----

  /** A new block, its row and the edge to it. */
  function WithNew(g: Graph, b: nat, pc: nat, k: BasicBlock): Graph
    requires b < |g.blocks| <= |g.psTable|
  {
    g.WithEnd(b, pc).WithBlock(k).WithRow().WithEdge(b, |g.blocks|)
  }

  lemma NewUses(code: seq<Insn>, g: Graph, b: nat, pc: nat, position: nat)
    requires b < |g.blocks| <= |g.psTable| && position < |code| && FirstStarting(g.blocks, position, INTERNAL) < 0
    ensures Unused(code, WithNew(g, b, pc, NewBlock(position, INTERNAL))) < Unused(code, g)
  {
    var h := WithNew(g, b, pc, NewBlock(position, INTERNAL));
    ExtendsUnused(code, g, h);
    FirstStartingMeaning(g.blocks, position, INTERNAL);
    assert forall i :: g.Internal(i) ==> !Starts(g.blocks[i], position, INTERNAL);
    assert h.Internal(|g.blocks|) && h.blocks[|g.blocks|].start == position;
    NewStartUsed(code, g, h, position);
  }

  /** The graph after the scan of block `b`, which has come to `pc`, and of every block first reached from it; None
      when an assertion fails or a branch target has no location. */
  ghost function Scan(code: seq<Insn>, g: Graph, b: nat, pc: nat): (r: Option<Graph>)
    requires ValidCode(code) && b < |g.blocks| <= |g.psTable|
    ensures r.Some? ==> Extends(g, r.value)
    decreases Unused(code, g), 3, |code| - pc
  {
    if pc >= |code| then Some(g)
    else if code[pc].kind.Branch? then EndIn(code, g, b, pc)
    else
      var following := FirstStarting(g.blocks, pc + 1, INTERNAL);
      if pc + 1 < |code| && following >= 0 then Some(g.WithEnd(b, pc).WithEdge(b, following))
      else Scan(code, g, b, pc + 1)
  }

  /** The branch at `pc` ends block `b`: where it goes when taken, then the next instruction, then the flags. */
  ghost function EndIn(code: seq<Insn>, g: Graph, b: nat, pc: nat): (r: Option<Graph>)
    requires ValidCode(code) && b < |g.blocks| <= |g.psTable| && pc < |code| && code[pc].kind.Branch?
    ensures r.Some? ==> Extends(g, r.value)
    decreases Unused(code, g), 2
  {
    var taken := Taken(code, g, b, pc);
    if taken.None? then None
    else
      ExtendsUnused(code, g, taken.value);
      var both := if !code[pc].kind.Continues() then taken
                  else if pc + 1 >= |code| then None
                  else Follow(code, taken.value, b, pc, pc + 1);
      if both.None? then None else Some(both.value.WithFlags(b, Flags(code, pc)))
  }

  ghost function Taken(code: seq<Insn>, g: Graph, b: nat, pc: nat): (r: Option<Graph>)
    requires ValidCode(code) && b < |g.blocks| <= |g.psTable| && pc < |code| && code[pc].kind.Branch?
    ensures r.Some? ==> Extends(g, r.value)
    decreases Unused(code, g), 1
  {
    if !code[pc].kind.TakesTarget() then Some(WithNew(g, b, pc, NewBlock(pc, RUNTIME)))
    else match code[pc].target
      case Unresolved => None
      case Outside => Some(WithNew(g, b, pc, NewBlock(pc, EXTERNAL)))
      case Inside(position) => Follow(code, g, b, pc, position)
  }

  /** The internal successor at a position: an existing block, or a new one and its scan. */
  ghost function Follow(code: seq<Insn>, g: Graph, b: nat, pc: nat, position: nat): (r: Option<Graph>)
    requires ValidCode(code) && b < |g.blocks| <= |g.psTable| && position < |code|
    ensures r.Some? ==> Extends(g, r.value)
    decreases Unused(code, g), 0
  {
    var k := FirstStarting(g.blocks, position, INTERNAL);
    if k >= 0 then Some(g.WithEnd(b, pc).WithRow().WithEdge(b, k))
    else
      NewUses(code, g, b, pc, position);
      Scan(code, WithNew(g, b, pc, NewBlock(position, INTERNAL)), |g.blocks|, position)
  }

  const ENTRY := Graph([NewBlock(0, INTERNAL)], [PSEntry([], [])])

  /** The block graph of a function. */
  ghost function Constructed(code: seq<Insn>): Option<Graph>
    requires ValidCode(code)
  {
    Scan(code, ENTRY, 0, 0)
  }

  /** Block `b` has all its successors, and every block made for them is settled. */
  ghost predicate Branched(code: seq<Insn>, g: Graph, h: Graph, b: nat, pc: nat) {
    && Grounded(code, h) && Grown(g, h, b) && b == |g.blocks| - 1
    && h.blocks[b] == g.blocks[b].(end := pc)
    && pc < |code| && code[pc].kind.Branch? && BranchRow(code, h, pc, h.psTable[b].succ)
    && SettledFrom(code, h, |g.blocks|, |h.blocks|)
    && Unused(code, h) <= Unused(code, g)
  }

  lemma FollowedTwice(code: seq<Insn>, g: Graph, h: Graph, h2: Graph, b: nat, pc: nat)
    requires b == |g.blocks| - 1 && pc < |code| && code[pc].kind.Branch? && code[pc].kind.Continues()
    requires |g.blocks| <= |g.psTable| && g.psTable[b].succ == []
    requires exists k: nat :: Followed(code, g, h, b, pc, k) && TakenLands(code, h, pc, k)
    requires exists k: nat :: Followed(code, h, h2, b, pc, k) && Lands(h2, k, INTERNAL, pc + 1) && pc + 1 < |code|
    ensures Branched(code, g, h2, b, pc)
  {
    hide Grounded, Grown, Unused, SettledFrom, TakenLands;
    var k: nat :| Followed(code, g, h, b, pc, k) && TakenLands(code, h, pc, k);
    var k2: nat :| Followed(code, h, h2, b, pc, k2) && Lands(h2, k2, INTERNAL, pc + 1);
    GrownTwice(g, h, h2, b);
    SettledTwice(code, h, h2, b, |g.blocks|);
    LandsAfter(code, h, h2, b, pc, k);
    assert h2.psTable[b].succ == [k, k2];
  }

  lemma GrownTwice(g: Graph, h: Graph, h2: Graph, b: nat)
    requires Grown(g, h, b) && Grown(h, h2, b)
    ensures Grown(g, h2, b)
  {
    assert forall i :: 0 <= i < |g.blocks| ==> h.blocks[i].start == g.blocks[i].start;
  }

  lemma SettledTwice(code: seq<Insn>, h: Graph, h2: Graph, b: nat, from: nat)
    requires Grown(h, h2, b) && b < from
    requires SettledFrom(code, h, from, |h.blocks|) && SettledFrom(code, h2, |h.blocks|, |h2.blocks|)
    ensures SettledFrom(code, h2, from, |h2.blocks|)
  {
    hide Settled;
    SettledRangeFrame(code, h, h2, b, from, |h.blocks|);
  }

  lemma LandsAfter(code: seq<Insn>, h: Graph, h2: Graph, b: nat, pc: nat, k: nat)
    requires Grown(h, h2, b) && pc < |code| && TakenLands(code, h, pc, k)
    ensures TakenLands(code, h2, pc, k)
  {
    assert k < |h.blocks| ==> h2.blocks[k].start == h.blocks[k].start;
  }

  /** Setting the ending flags of a block that has its successors settles it. */
  lemma BranchSettled(code: seq<Insn>, g: Graph, h: Graph, f: Graph, b: nat, pc: nat)
    requires Scanning(code, g, b, pc) && pc < |code| && !Aborts(code, pc)
    requires Branched(code, g, h, b, pc)
    requires f.psTable == h.psTable && exists e, c, t ::
               f.blocks == h.blocks[b := h.blocks[b].(isExit := e, endsInCall := c, endsInTailCall := t)]
               && (e, c, t) == Flags(code, pc)
    ensures Grounded(code, f) && Grown(g, f, b) && SettledFrom(code, f, b, |f.blocks|)
    ensures Unused(code, f) <= Unused(code, g)
  {
    hide Reachable, HasCreator, Unused, Graph.Valid, Settled, BranchRow, Flags;
    assert Grown(h, f, b);
    FlagsKeepGrounded(code, h, f, b);
    ExtendsUnused(code, h, f);
    SettledRangeFrame(code, h, f, b, |g.blocks|, |h.blocks|);
    GrownTwice(g, h, f, b);
    OwnSettled(code, g, h, f, b, pc);
  }

  lemma OwnSettled(code: seq<Insn>, g: Graph, h: Graph, f: Graph, b: nat, pc: nat)
    requires Scanning(code, g, b, pc) && pc < |code| && !Aborts(code, pc)
    requires Branched(code, g, h, b, pc) && Grown(h, f, b) && f.psTable == h.psTable && b < |f.blocks|
    requires exists e, c, t ::
               f.blocks[b] == h.blocks[b].(isExit := e, endsInCall := c, endsInTailCall := t)
               && (e, c, t) == Flags(code, pc)
    ensures Settled(code, f, b)
  {
    hide Reachable, HasCreator, Unused, Graph.Valid, SettledFrom, Flags;
    forall k | 0 <= k < b && f.blocks[k].blockType == INTERNAL
      ensures !(f.blocks[b].start < f.blocks[k].start <= pc)
    {
      assert g.blocks[k].blockType == INTERNAL;
    }
    var row := h.psTable[b].succ;
    LandsAfter(code, h, f, b, pc, row[0]);
    assert BranchRow(code, f, pc, row);
  }

  lemma FlagsKeepGrounded(code: seq<Insn>, h: Graph, f: Graph, b: nat)
    requires Grounded(code, h) && h.Internal(b) && Grown(h, f, b) && f.psTable == h.psTable && |f.blocks| == |h.blocks|
    ensures Grounded(code, f)
  {
    Graph.SameRowsSameDual(h, f);
    CreatorsStay(h, f);
    forall i | f.Internal(i)
      ensures f.blocks[i].start < |code| && Reachable(code, f.blocks[i].start)
    {
      assert h.Internal(i);
    }
  }

  /** Whether a branch that does not continue leaves the function, read off the successor row. */
  lemma RowOutside(code: seq<Insn>, g: Graph, h: Graph, b: nat, pc: nat)
    requires Branched(code, g, h, b, pc) && !code[pc].kind.Continues()
    ensures h.WellIndexed() && b < |h.psTable|
    ensures (exists k :: 0 <= k < |h.psTable[b].succ| && h.blocks[h.psTable[b].succ[k]].blockType != INTERNAL)
       <==> (code[pc].kind.TakesTarget() ==> code[pc].target.Outside?)
  {
    hide Reachable, HasCreator, SettledFrom, Unused;
    assert h.blocks[h.psTable[b].succ[0]].blockType != INTERNAL
      <==> (code[pc].kind.TakesTarget() ==> code[pc].target.Outside?);
  }

  lemma NewStartUsed(code: seq<Insn>, g: Graph, h: Graph, position: nat)
    requires position < |code| && Unused(code, h) <= Unused(code, g)
    requires forall i :: g.Internal(i) ==> g.blocks[i].start != position
    requires exists i :: h.Internal(i) && h.blocks[i].start == position
    ensures Unused(code, h) < Unused(code, g)
  {
    assert position in Unused(code, g);
    assert position !in Unused(code, h);
  }

  // ---- What is constructed ----

  /** Block `b` was just created, and has been scanned up to `pc` without finding its end. */
  ghost predicate Scanning(code: seq<Insn>, g: Graph, b: nat, pc: nat) {
    && ValidCode(code) && Grounded(code, g) && b == |g.blocks| - 1 && g.Internal(b)
    && g.blocks[b] == NewBlock(g.blocks[b].start, INTERNAL) && g.psTable[b].succ == []
    && g.blocks[b].start <= pc <= |code| && PlainBetween(code, g.blocks[b].start, pc) && NoEarlierStart(g, b, pc)
  }

  ghost predicate ScanDone(code: seq<Insn>, g: Graph, b: nat, r: Option<Graph>) {
    match r
    case None => Stuck(code)
    case Some(h) => Grounded(code, h) && Grown(g, h, b) && SettledFrom(code, h, b, |h.blocks|)
  }

  lemma {:induction false} ScanSettles(code: seq<Insn>, g: Graph, b: nat, pc: nat)
    requires Scanning(code, g, b, pc)
    ensures ScanDone(code, g, b, Scan(code, g, b, pc))
    decreases Unused(code, g), 3, |code| - pc
  {
    hide Reachable, HasCreator, Unused, Graph.Dual, Graph.UniqueStarts, Graph.OutsideIsLeaf, EndIn;
    if pc >= |code| {
      assert Settled(code, g, b);
    } else if code[pc].kind.Branch? {
      EndSettles(code, g, b, pc);
    } else {
      var following := FirstStarting(g.blocks, pc + 1, INTERNAL);
      FirstStartingMeaning(g.blocks, pc + 1, INTERNAL);
      if pc + 1 < |code| && following >= 0 {
        FallThroughSettles(code, g, b, pc, following);
      } else {
        NoStartYet(code, g, b, pc);
        ScanSettles(code, g, b, pc + 1);
      }
    }
  }

  lemma NoStartYet(code: seq<Insn>, g: Graph, b: nat, pc: nat)
    requires Scanning(code, g, b, pc) && pc < |code| && code[pc].kind.Plain?
    requires pc + 1 == |code| || FirstStarting(g.blocks, pc + 1, INTERNAL) < 0
    ensures Scanning(code, g, b, pc + 1)
  {
    hide Reachable, HasCreator, Graph.Dual, Graph.UniqueStarts, Graph.OutsideIsLeaf;
    FirstStartingMeaning(g.blocks, pc + 1, INTERNAL);
    forall k | 0 <= k < b && g.blocks[k].blockType == INTERNAL
      ensures !(g.blocks[b].start < g.blocks[k].start <= pc + 1)
    {
      assert g.Internal(k);
      assert pc + 1 < |code| ==> !Starts(g.blocks[k], pc + 1, INTERNAL);
    }
  }

  lemma FallThroughSettles(code: seq<Insn>, g: Graph, b: nat, pc: nat, following: nat)
    requires Scanning(code, g, b, pc) && pc + 1 < |code| && code[pc].kind.Plain?
    requires g.Internal(following) && g.blocks[following].start == pc + 1
    ensures ScanDone(code, g, b, Some(g.WithEnd(b, pc).WithEdge(b, following)))
  {
    hide Reachable, HasCreator, Graph.Dual, Graph.UniqueStarts, Graph.OutsideIsLeaf;
    var h := g.WithEnd(b, pc).WithEdge(b, following);
    g.EndKeepsValid(b, pc);
    g.WithEnd(b, pc).EdgeKeepsValid(b, following);
    LinkExisting(code, g, h, b, pc, following);
    assert Settled(code, h, b);
  }

  lemma {:induction false} EndSettles(code: seq<Insn>, g: Graph, b: nat, pc: nat)
    requires Scanning(code, g, b, pc) && pc < |code| && code[pc].kind.Branch?
    ensures ScanDone(code, g, b, EndIn(code, g, b, pc))
    decreases Unused(code, g), 2
  {
    hide Reachable, HasCreator, Unused, Settled, Grounded, Taken, Follow, SettledFrom, BranchRow, Followed, TakenLands;
    ScanningReachable(code, g, b, pc);
    GroundedSize(code, g);
    TakenSettles(code, g, b, pc);
    var taken := Taken(code, g, b, pc);
    if taken.Some? {
      var h := taken.value;
      ExtendsUnused(code, g, h);
      if code[pc].kind.Continues() {
        if pc + 1 >= |code| {
          assert Aborts(code, pc);
        } else {
          StepReachable(code, pc, pc + 1);
          TakenKeeps(code, g, h, b, pc);
          FollowSettles(code, h, b, pc, pc + 1);
          var both := Follow(code, h, b, pc, pc + 1);
          if both.Some? {
            FollowedTwice(code, g, h, both.value, b, pc);
            FlagsSettle(code, g, both.value, b, pc);
          }
        }
      } else {
        TakenBranched(code, g, h, b, pc);
        FlagsSettle(code, g, h, b, pc);
      }
    }
  }

  lemma ScanningReachable(code: seq<Insn>, g: Graph, b: nat, pc: nat)
    requires Scanning(code, g, b, pc) && pc < |code|
    ensures Reachable(code, pc)
  {
    hide Reachable, HasCreator, Graph.Valid;
    StraightReachable(code, g.blocks[b].start, pc);
  }

  /** The successor for the taken branch is there, and settled if it is new. */
  ghost predicate TakenDone(code: seq<Insn>, g: Graph, b: nat, pc: nat, h: Graph) {
    pc < |code| && exists k: nat :: Followed(code, g, h, b, pc, k) && TakenLands(code, h, pc, k)
  }

  ghost predicate FollowDone(code: seq<Insn>, g: Graph, b: nat, pc: nat, position: nat, h: Graph) {
    exists k: nat :: Followed(code, g, h, b, pc, k) && Lands(h, k, INTERNAL, position)
  }

  lemma TakenKeeps(code: seq<Insn>, g: Graph, h: Graph, b: nat, pc: nat)
    requires g.Internal(b) && TakenDone(code, g, b, pc, h)
    ensures Grounded(code, h) && h.Internal(b) && !(code[pc].kind.TakesTarget() && code[pc].target.Unresolved?)
  {
    hide Grounded, SettledFrom, Unused;
  }

  lemma TakenBranched(code: seq<Insn>, g: Graph, h: Graph, b: nat, pc: nat)
    requires Scanning(code, g, b, pc) && TakenDone(code, g, b, pc, h)
    requires code[pc].kind.Branch? && !code[pc].kind.Continues()
    ensures Branched(code, g, h, b, pc) && !Aborts(code, pc)
  {
    hide Grounded, SettledFrom, Unused;
    var k: nat :| Followed(code, g, h, b, pc, k) && TakenLands(code, h, pc, k);
    assert h.psTable[b].succ == [k];
  }

  lemma FlagsSettle(code: seq<Insn>, g: Graph, h: Graph, b: nat, pc: nat)
    requires Scanning(code, g, b, pc) && Branched(code, g, h, b, pc) && !Aborts(code, pc)
    ensures b < |h.blocks| && ScanDone(code, g, b, Some(h.WithFlags(b, Flags(code, pc))))
  {
    hide Reachable, HasCreator, Unused, Settled, Graph.Valid, BranchRow;
    var f := h.WithFlags(b, Flags(code, pc));
    var (e, c, t) := Flags(code, pc);
    assert f.blocks == h.blocks[b := h.blocks[b].(isExit := e, endsInCall := c, endsInTailCall := t)];
    BranchSettled(code, g, h, f, b, pc);
  }

  lemma {:induction false} TakenSettles(code: seq<Insn>, g: Graph, b: nat, pc: nat)
    requires ValidCode(code) && Grounded(code, g) && g.Internal(b)
    requires pc < |code| && Reachable(code, pc) && code[pc].kind.Branch?
    ensures match Taken(code, g, b, pc)
      case None => Stuck(code)
      case Some(h) => TakenDone(code, g, b, pc, h)
    decreases Unused(code, g), 1
  {
    hide Reachable, HasCreator, Unused, Settled, Grounded, Graph.Valid, Followed, Follow;
    GroundedSize(code, g);
    var kind := code[pc].kind;
    if kind.TakesTarget() && code[pc].target.Unresolved? {
      assert Aborts(code, pc);
    } else if kind.TakesTarget() && code[pc].target.Inside? {
      StepReachable(code, pc, code[pc].target.position);
      FollowSettles(code, g, b, pc, code[pc].target.position);
    } else {
      var t := if kind.TakesTarget() then EXTERNAL else RUNTIME;
      OutsideDone(code, g, b, pc, t);
    }
  }

  lemma OutsideDone(code: seq<Insn>, g: Graph, b: nat, pc: nat, t: BlockType)
    requires Grounded(code, g) && g.Internal(b) && t != INTERNAL && b < |g.psTable|
    ensures var h := WithNew(g, b, pc, NewBlock(pc, t));
      Followed(code, g, h, b, pc, |g.blocks|) && Lands(h, |g.blocks|, t, pc)
  {
    hide Reachable, HasCreator, Unused, Settled, Graph.Valid;
    NewLinked(code, g, b, pc, NewBlock(pc, t));
  }

  lemma NewLinked(code: seq<Insn>, g: Graph, b: nat, pc: nat, k: BasicBlock)
    requires Grounded(code, g) && g.Internal(b) && k == NewBlock(k.start, k.blockType) && b < |g.psTable|
    requires k.blockType == INTERNAL ==>
      k.start < |code| && Reachable(code, k.start) && FirstStarting(g.blocks, k.start, INTERNAL) < 0
    ensures var h := WithNew(g, b, pc, k);
      Grounded(code, h) && LinkedNew(g, h, b, pc, k) && Unused(code, h) <= Unused(code, g)
  {
    hide Reachable, HasCreator, Unused, Graph.Dual, Graph.OutsideIsLeaf;
    g.EndKeepsValid(b, pc);
    FirstStartingMeaning(g.blocks, k.start, INTERNAL);
    var g1 := g.WithEnd(b, pc);
    if k.blockType == INTERNAL {
      forall i | g1.Internal(i)
        ensures g1.blocks[i].start != k.start
      {
        assert !Starts(g.blocks[i], k.start, INTERNAL);
      }
    }
    g1.NewBlockKeepsValid(b, k);
    LinkNew(code, g, WithNew(g, b, pc, k), b, pc, k);
  }

  lemma ExistingLinked(code: seq<Insn>, g: Graph, b: nat, pc: nat, k: nat)
    requires Grounded(code, g) && g.Internal(b) && g.Internal(k)
    ensures |g.blocks| <= |g.psTable|
    ensures Followed(code, g, g.WithEnd(b, pc).WithRow().WithEdge(b, k), b, pc, k)
    ensures Lands(g.WithEnd(b, pc).WithRow().WithEdge(b, k), k, INTERNAL, g.blocks[k].start)
  {
    hide Reachable, HasCreator, Unused, Followed, Graph.Dual, Graph.UniqueStarts, Graph.OutsideIsLeaf;
    g.EndKeepsValid(b, pc);
    g.WithEnd(b, pc).RowKeepsValid();
    g.WithEnd(b, pc).WithRow().EdgeKeepsValid(b, k);
    LinkExisting(code, g, g.WithEnd(b, pc).WithRow().WithEdge(b, k), b, pc, k);
  }

  lemma {:induction false} FollowSettles(code: seq<Insn>, g: Graph, b: nat, pc: nat, position: nat)
    requires ValidCode(code) && Grounded(code, g) && g.Internal(b)
    requires position < |code| && Reachable(code, position)
    ensures match Follow(code, g, b, pc, position)
      case None => Stuck(code)
      case Some(h) => FollowDone(code, g, b, pc, position, h)
    decreases Unused(code, g), 0
  {
    hide Reachable, HasCreator, Unused, Settled, Grounded, Followed, Scan, Grown, SettledFrom;
    GroundedSize(code, g);
    var k := FirstStarting(g.blocks, position, INTERNAL);
    FirstStartingMeaning(g.blocks, position, INTERNAL);
    if k >= 0 {
      ExistingLinked(code, g, b, pc, k);
    } else {
      var h := WithNew(g, b, pc, NewBlock(position, INTERNAL));
      NewLinked(code, g, b, pc, NewBlock(position, INTERNAL));
      NewUses(code, g, b, pc, position);
      JustCreated(code, h, |g.blocks|, position);
      ScanSettles(code, h, |g.blocks|, position);
      var r := Scan(code, h, |g.blocks|, position);
      if r.Some? {
        ExtendsUnused(code, h, r.value);
        FollowNew(code, g, h, r.value, b, pc);
        NewLands(h, r.value, |g.blocks|, position);
      }
    }
  }

  lemma GroundedSize(code: seq<Insn>, g: Graph)
    requires Grounded(code, g)
    ensures |g.blocks| <= |g.psTable|
  {
  }

  lemma NewLands(h: Graph, f: Graph, b: nat, position: nat)
    requires Grown(h, f, b) && b < |h.blocks| && h.blocks[b] == NewBlock(position, INTERNAL)
    ensures Lands(f, b, INTERNAL, position)
  {
  }

  lemma JustCreated(code: seq<Insn>, g: Graph, b: nat, position: nat)
    requires ValidCode(code) && Grounded(code, g) && b == |g.blocks| - 1 && b < |g.psTable| && position <= |code|
    requires g.blocks[b] == NewBlock(position, INTERNAL) && g.psTable[b].succ == []
    ensures Scanning(code, g, b, position)
  {
  }

  /** The construction fails exactly on code that is stuck, and otherwise satisfies the invariants of blocks. */
  lemma ConstructedBuilt(code: seq<Insn>)
    requires ValidCode(code)
    ensures Constructed(code).None? <==> Stuck(code)
    ensures Constructed(code).Some? ==> Built(code, Constructed(code).value)
  {
    hide Reachable, HasCreator, Settled, Grounded, Scan, SettledFrom;
    EntryGrounded(code);
    JustCreated(code, ENTRY, 0, 0);
    ScanSettles(code, ENTRY, 0, 0);
    if Constructed(code).Some? { NotStuck(code, Constructed(code).value); }
  }

  lemma EntryGrounded(code: seq<Insn>)
    requires ValidCode(code)
    ensures Grounded(code, ENTRY)
  {
    hide Reachable;
    EntryReachable(code);
  }

  /** A new block has no flags set. */
  lemma UnsetFlags(code: seq<Insn>, g: Graph, h: Graph, b: nat, pc: nat)
    requires Scanning(code, g, b, pc) && Branched(code, g, h, b, pc)
    ensures h.WithFlags(b, (false, false, false)) == h
  {
    hide Reachable, HasCreator, Unused, Settled, Graph.Valid, BranchRow, SettledFrom;
  }
}
