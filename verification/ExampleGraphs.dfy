/** Evaluating the construction on given code, one block at a time. */
module ExampleGraphs {
  import opened Wrappers
  import opened Instructions
  import opened MachineCode
  import opened ControlFlowGraphs
  import opened BlockInvariants
  import opened BlockConstruction

  function BranchTo(target: nat): Insn {
    Insn(Branch(Conditional, false, false), Inside(target), 0, false, [], [], [], [])
  }

  function GoTo(target: nat): Insn {
    Insn(Branch(Direct, false, true), Inside(target), 3, false, [], [], [], [])
  }

  function Define(register: nat): Insn {
    Insn(Plain, Unresolved, 1, false, [], [1], [], [Location(GPR, register)])
  }

  /** A store that also moves its base register. */
  function StoreWithUpdate(register: nat): Insn {
    Insn(Plain, Unresolved, 4, true, [], [4], [Location(GPR, register)], [Location(GPR, register)])
  }

  const RETURN := Insn(Branch(ToLR, false, true), Unresolved, 2, false, [], [], [], [])

  function Block(start: nat, end: nat, isExit: bool): BasicBlock {
    BasicBlock(start, end, INTERNAL, isExit, false, false)
  }

  const NONE := PSEntry([], [])

  /** Equality, row by row. */
  ghost predicate Same(g: Graph, h: Graph) {
    && |g.blocks| == |h.blocks| && (forall i :: 0 <= i < |g.blocks| ==> g.blocks[i] == h.blocks[i])
    && |g.psTable| == |h.psTable|
    && (forall i :: 0 <= i < |g.psTable| ==> g.psTable[i].pred == h.psTable[i].pred)
    && (forall i :: 0 <= i < |g.psTable| ==> g.psTable[i].succ == h.psTable[i].succ)
  }

  lemma SameEqual(g: Graph, h: Graph)
    requires Same(g, h)
    ensures g == h
  {
    assert g.blocks == h.blocks;
    assert forall i :: 0 <= i < |g.psTable| ==> g.psTable[i] == h.psTable[i];
    assert g.psTable == h.psTable;
  }

  /** No internal block starts at the position. */
  predicate Free(g: Graph, position: nat) {
    forall i :: 0 <= i < |g.blocks| ==> !Starts(g.blocks[i], position, INTERNAL)
  }

  /** Block `k` does, and no other before it. */
  predicate StartsFirst(g: Graph, k: nat, position: nat) {
    && k < |g.blocks| && Starts(g.blocks[k], position, INTERNAL)
    && forall i :: 0 <= i < k ==> !Starts(g.blocks[i], position, INTERNAL)
  }

  lemma Found(g: Graph, position: nat)
    ensures Free(g, position) ==> FirstStarting(g.blocks, position, INTERNAL) < 0
    ensures forall k :: StartsFirst(g, k, position) ==> FirstStarting(g.blocks, position, INTERNAL) == k
  {
    FirstStartingMeaning(g.blocks, position, INTERNAL);
  }

  /** From `pc` the scan meets no end of the block before `e`. */
  ghost predicate Runs(code: seq<Insn>, g: Graph, pc: nat, e: nat) {
    e < |code| && forall p {:trigger code[p]} :: pc <= p < e ==> code[p].kind.Plain? && Free(g, p + 1)
  }

  lemma PlainFirst(code: seq<Insn>, g: Graph, pc: nat)
    requires pc + 1 < |code| && code[pc].kind.Plain? && Free(g, pc + 1)
    ensures Runs(code, g, pc, pc + 1)
  {
  }

  lemma {:induction false} ScanRuns(code: seq<Insn>, g: Graph, b: nat, pc: nat, e: nat)
    requires ValidCode(code) && b < |g.blocks| <= |g.psTable| && pc <= e && Runs(code, g, pc, e)
    ensures Scan(code, g, b, pc) == Scan(code, g, b, e)
    decreases e - pc
  {
    hide EndIn, Unused, Free;
    if pc < e {
      assert code[pc].kind.Plain? && Free(g, pc + 1);
      Found(g, pc + 1);
      ScanRuns(code, g, b, pc + 1, e);
    }
  }

  /** The block ends in a branch that may or may not be taken. */
  lemma EndsInBranch(code: seq<Insn>, g: Graph, b: nat, pc: nat, e: nat, target: nat, g1: Graph, g2: Graph)
    requires ValidCode(code) && b < |g.blocks| <= |g.psTable| && pc <= e && Runs(code, g, pc, e) && e + 1 < |code|
    requires code[e] == BranchTo(target) && Follow(code, g, b, e, target) == Some(g1)
    requires b < |g1.blocks| <= |g1.psTable| && Follow(code, g1, b, e, e + 1) == Some(g2)
    requires b < |g2.blocks| && g2.WithFlags(b, (false, false, false)) == g2
    ensures Scan(code, g, b, pc) == Some(g2)
  {
    hide Follow, Unused;
    ScanRuns(code, g, b, pc, e);
    assert EndIn(code, g, b, e) == Some(g2);
  }

  lemma EndsInJump(code: seq<Insn>, g: Graph, b: nat, pc: nat, e: nat, target: nat, g1: Graph)
    requires ValidCode(code) && b < |g.blocks| <= |g.psTable| && pc <= e && Runs(code, g, pc, e)
    requires code[e] == GoTo(target) && Follow(code, g, b, e, target) == Some(g1)
    requires b < |g1.blocks| && g1.WithFlags(b, (false, false, false)) == g1
    ensures Scan(code, g, b, pc) == Some(g1)
  {
    hide Follow, Unused;
    ScanRuns(code, g, b, pc, e);
    assert EndIn(code, g, b, e) == Some(g1);
  }

  lemma EndsInReturn(code: seq<Insn>, g: Graph, b: nat, pc: nat, e: nat, g1: Graph)
    requires ValidCode(code) && b < |g.blocks| <= |g.psTable| && pc <= e && Runs(code, g, pc, e)
    requires code[e] == RETURN
    requires Same(g1, WithNew(g, b, e, NewBlock(e, RUNTIME)).WithFlags(b, (true, false, false)))
    ensures Scan(code, g, b, pc) == Some(g1)
  {
    hide Follow, Unused;
    ScanRuns(code, g, b, pc, e);
    SameEqual(g1, WithNew(g, b, e, NewBlock(e, RUNTIME)).WithFlags(b, (true, false, false)));
    assert EndIn(code, g, b, e) == Some(g1);
  }

  lemma FallsThrough(code: seq<Insn>, g: Graph, b: nat, pc: nat, e: nat, k: nat, g1: Graph)
    requires ValidCode(code) && b < |g.blocks| <= |g.psTable| && pc <= e && Runs(code, g, pc, e) && e + 1 < |code|
    requires code[e].kind.Plain? && StartsFirst(g, k, e + 1)
    requires Same(g1, g.WithEnd(b, e).WithEdge(b, k))
    ensures Scan(code, g, b, pc) == Some(g1)
  {
    hide EndIn, Unused, Same;
    ScanRuns(code, g, b, pc, e);
    Found(g, e + 1);
    SameEqual(g1, g.WithEnd(b, e).WithEdge(b, k));
  }

  lemma FollowsOld(code: seq<Insn>, g: Graph, b: nat, pc: nat, position: nat, k: nat, g1: Graph)
    requires ValidCode(code) && b < |g.blocks| <= |g.psTable| && position < |code|
    requires StartsFirst(g, k, position) && Same(g1, g.WithEnd(b, pc).WithRow().WithEdge(b, k))
    ensures Follow(code, g, b, pc, position) == Some(g1)
  {
    hide Scan, Unused, Same, Free;
    SameEqual(g1, g.WithEnd(b, pc).WithRow().WithEdge(b, k));
    Found(g, position);
  }

  lemma FollowsNew(code: seq<Insn>, g: Graph, b: nat, pc: nat, position: nat, g1: Graph, g2: Graph)
    requires ValidCode(code) && b < |g.blocks| <= |g.psTable| && position < |code|
    requires Free(g, position) && Same(g1, WithNew(g, b, pc, NewBlock(position, INTERNAL)))
    requires Scan(code, g1, |g.blocks|, position) == Some(g2)
    ensures Follow(code, g, b, pc, position) == Some(g2)
  {
    hide Scan, Unused, Same, Free;
    SameEqual(g1, WithNew(g, b, pc, NewBlock(position, INTERNAL)));
    Found(g, position);
  }
}
