/** What the block construction guarantees of every block, and why later steps do not disturb it. */
module BlockInvariants {
  import opened Instructions
  import opened MachineCode
  import opened ControlFlowGraphs

  /** The last instruction scanned for block `i`.  It is the block's `end`, except that a block which ran past
      the last instruction is left with `end == start` and no successor. */
  function Last(code: seq<Insn>, g: Graph, i: nat): int
    requires i < |g.blocks| <= |g.psTable|
  {
    if g.psTable[i].succ == [] then |code| - 1 else g.blocks[i].end
  }

  predicate Lands(g: Graph, k: nat, blockType: BlockType, start: nat) {
    k < |g.blocks| && g.blocks[k].blockType == blockType && g.blocks[k].start == start
  }

  /** Some internal block starts at the position. */
  ghost predicate StartsBlock(g: Graph, p: int) {
    exists i :: g.Internal(i) && g.blocks[i].start == p
  }

  /** The block a branch at `p` goes to when taken. */
  predicate TakenLands(code: seq<Insn>, g: Graph, p: nat, k: nat)
    requires p < |code|
  {
    if !code[p].kind.TakesTarget() then Lands(g, k, RUNTIME, p)
    else match code[p].target
      case Unresolved => false
      case Outside => Lands(g, k, EXTERNAL, p)
      case Inside(q) => Lands(g, k, INTERNAL, q)
  }

  /** The successors of a block that ends in the branch at `p`, in order: where the branch goes when taken,
      then the next instruction if control can go on to it. */
  predicate BranchRow(code: seq<Insn>, g: Graph, p: nat, row: seq<nat>)
    requires p < |code| && code[p].kind.Branch?
  {
    && |row| == (if code[p].kind.Continues() then 2 else 1)
    && TakenLands(code, g, p, row[0])
    && (code[p].kind.Continues() ==> p + 1 < |code| && Lands(g, row[1], INTERNAL, p + 1))
  }

  /** isExit, endsInCall and endsInTailCall of a block that ends at `p`.  Only a branch in the function's last
      instruction is taken for a tail call. */
  function Flags(code: seq<Insn>, p: nat): (bool, bool, bool)
    requires p < |code|
  {
    var kind := code[p].kind;
    var leaves := p + 1 == |code| && (kind.TakesTarget() ==> code[p].target.Outside?);
    if kind.Plain? || kind.Continues() then (false, kind.Branch? && kind.link, false)
    else if kind.form.ToLR? then (true, false, false)
    else (leaves, leaves, leaves)
  }

  /** No block created before `i` starts strictly after `i` does and no later than `last`. */
  ghost predicate NoEarlierStart(g: Graph, i: nat, last: int)
    requires i < |g.blocks|
  {
    forall k :: 0 <= k < i && g.blocks[k].blockType == INTERNAL ==> !(g.blocks[i].start < g.blocks[k].start <= last)
  }

  ghost predicate PlainBetween(code: seq<Insn>, from: int, to: int) {
    forall p :: 0 <= p < |code| && from <= p < to ==> code[p].kind.Plain?
  }

  /** Block `i` was scanned to its end. */
  ghost predicate Settled(code: seq<Insn>, g: Graph, i: nat)
    requires i < |g.blocks| <= |g.psTable|
  {
    var b := g.blocks[i];
    var row := g.psTable[i].succ;
    var last := Last(code, g, i);
    && b.start <= b.end <= last < |code|
    && PlainBetween(code, b.start, last)
    && NoEarlierStart(g, i, last)
    && (b.isExit, b.endsInCall, b.endsInTailCall) == Flags(code, last)
    && (row == [] ==> b.end == b.start && code[last].kind.Plain?)
    && (row != [] && code[last].kind.Plain? ==>
          |row| == 1 && row[0] < i && Lands(g, row[0], INTERNAL, last + 1))
    && (code[last].kind.Branch? ==> !Aborts(code, last) && BranchRow(code, g, last, row))
  }

  /** The block is listed as a successor of an earlier one. */
  ghost predicate HasCreator(g: Graph, j: nat) {
    exists i :: 0 <= i < j && i < |g.psTable| && j in g.psTable[i].succ
  }

  /** Holds in every state of the construction. */
  ghost predicate Grounded(code: seq<Insn>, g: Graph) {
    && g.Valid()
    && 0 < |g.blocks| && Lands(g, 0, INTERNAL, 0)
    && (forall i :: g.Internal(i) ==> g.blocks[i].start < |code| && Reachable(code, g.blocks[i].start))
    && (forall j :: 0 < j < |g.blocks| ==> HasCreator(g, j))
    && (forall j :: 0 <= j < |g.blocks| && g.blocks[j].blockType != INTERNAL ==>
          g.blocks[j] == NewBlock(g.blocks[j].start, g.blocks[j].blockType))
  }

  /** Holds of the finished graph. */
  ghost predicate Built(code: seq<Insn>, g: Graph) {
    Grounded(code, g) && SettledFrom(code, g, 0, |g.blocks|)
  }

  /** `h` has the blocks of `g`, of which only `b` may have changed its end, flags and successors. */
  ghost predicate Grown(g: Graph, h: Graph, b: nat) {
    && |g.blocks| <= |g.psTable| && |h.blocks| <= |h.psTable|
    && |g.blocks| <= |h.blocks|
    && (forall i {:trigger h.blocks[i]} :: 0 <= i < |g.blocks| ==>
          && h.blocks[i].start == g.blocks[i].start && h.blocks[i].blockType == g.blocks[i].blockType
          && (i != b ==> h.blocks[i] == g.blocks[i] && h.psTable[i].succ == g.psTable[i].succ))
  }

  ghost predicate SettledFrom(code: seq<Insn>, g: Graph, from: nat, to: nat)
    requires to <= |g.blocks| <= |g.psTable|
  {
    forall i {:trigger Settled(code, g, i)} ::
      from <= i < to && g.blocks[i].blockType == INTERNAL ==> Settled(code, g, i)
  }

  lemma SettledFrame(code: seq<Insn>, g: Graph, h: Graph, b: nat, i: nat)
    requires Grown(g, h, b) && i < |g.blocks| && i != b && Settled(code, g, i)
    ensures Settled(code, h, i)
  {
    assert h.blocks[i] == g.blocks[i] && h.psTable[i].succ == g.psTable[i].succ;
    var row := g.psTable[i].succ;
    forall k, t, s | 0 <= k < |row| && Lands(g, row[k], t, s)
      ensures Lands(h, row[k], t, s)
    {
      assert h.blocks[row[k]].start == s;
    }
    forall k | 0 <= k < i && h.blocks[k].blockType == INTERNAL
      ensures !(h.blocks[i].start < h.blocks[k].start <= Last(code, h, i))
    {
      assert g.blocks[k].blockType == INTERNAL;
    }
  }

  lemma SettledRangeFrame(code: seq<Insn>, g: Graph, h: Graph, b: nat, from: nat, to: nat)
    requires Grown(g, h, b) && to <= |g.blocks| && b < from && SettledFrom(code, g, from, to)
    ensures SettledFrom(code, h, from, to)
  {
    forall i | from <= i < to && h.blocks[i].blockType == INTERNAL
      ensures Settled(code, h, i)
    {
      assert g.blocks[i].blockType == INTERNAL;
      SettledFrame(code, g, h, b, i);
    }
  }
}
