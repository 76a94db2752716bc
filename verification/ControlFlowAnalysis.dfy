/** Recursive block discovery (src/control_flow/ControlFlowAnalysis.cpp). */
module ControlFlowAnalysis {
  import opened Wrappers
  import opened Instructions
  import opened MachineCode
  import opened ControlFlowGraphs
  import opened BlockInvariants
  import opened BlockConstruction

  /** `ok` is false when an assertion failed or a branch target had no location. */
  method FunctionCFA(cfg: ControlFlowGraph, code: seq<Insn>) returns (ok: bool)
    requires ValidCode(code) && cfg.blocks == [] && cfg.psTable == []
    modifies cfg
    ensures Constructed(code) == if ok then Some(cfg.Value()) else None
    ensures ok <==> !Stuck(code)
    ensures ok ==> Built(code, cfg.Value())
  {
    hide Grounded, Scan, Built;
    cfg.Init();
    EntryGrounded(code);
    JustCreated(code, ENTRY, 0, 0);
    ok := ScanBlock(cfg, code, 0);
    ConstructedBuilt(code);
  }

  /** The scan of one block, and of every block first reached from it. */
  method ScanBlock(cfg: ControlFlowGraph, code: seq<Insn>, b: nat) returns (ok: bool)
    requires b < |cfg.blocks| && Scanning(code, cfg.Value(), b, cfg.blocks[b].start) && |cfg.blocks| <= |cfg.psTable|
    modifies cfg
    decreases Unused(code, cfg.Value()), 4
    ensures old(Scan(code, cfg.Value(), b, cfg.blocks[b].start)) == if ok then Some(cfg.Value()) else None
  {
    hide Reachable, HasCreator, Unused, Graph.Dual, Graph.UniqueStarts, Graph.OutsideIsLeaf, EndIn;
    ghost var g := cfg.Value();
    var pc := cfg.blocks[b].start;
    while pc < |code|
      invariant cfg.Value() == g && Scanning(code, g, b, pc)
      invariant Scan(code, g, b, pc) == old(Scan(code, cfg.Value(), b, cfg.blocks[b].start))
    {
      if code[pc].kind.Branch? {
        ok := EndInBranch(cfg, code, b, pc);
        return;
      }
      var following := cfg.FindInternalBlockByPosition(pc + 1);
      FirstStartingMeaning(g.blocks, pc + 1, INTERNAL);
      if pc + 1 < |code| && following >= 0 {
        cfg.CreateSuccessorFallthrough(b, pc, following);
        return true;
      }
      NoStartYet(code, g, b, pc);
      pc := pc + 1;
    }
    return true;
  }

  /** The flags of block `b`, which ends in the branch at `pc`: a call links, or leaves the function by its last
      instruction; only the latter is a tail call, and an exit like a plain return. */
  ghost predicate EndsAs(g: Graph, code: seq<Insn>, b: nat, pc: nat)
    requires b < |g.blocks| <= |g.psTable| && pc < |code| && code[pc].kind.Branch?
  {
    var (kind, block) := (code[pc].kind, g.blocks[b]);
    var stays := kind.link || !kind.always;
    && (block.endsInTailCall <==>
          !stays && !kind.form.ToLR? && pc + 1 == |code| && exists s: nat :: s in g.psTable[b].succ && !g.Internal(s))
    && (block.endsInCall <==> kind.link || block.endsInTailCall)
    && (block.isExit <==> (!stays && kind.form.ToLR?) || block.endsInTailCall)
  }

  lemma FlagsEnd(code: seq<Insn>, g: Graph, h: Graph, b: nat, pc: nat)
    requires Branched(code, g, h, b, pc)
    ensures b < |h.blocks| <= |h.psTable| && EndsAs(h.WithFlags(b, Flags(code, pc)), code, b, pc)
  {
    hide Reachable, HasCreator, SettledFrom, Unused;
    if !code[pc].kind.Continues() {
      RowOutside(code, g, h, b, pc);
      var (row, f) := (h.psTable[b].succ, h.WithFlags(b, Flags(code, pc)));
      assert f.psTable[b].succ == row && row[0] in row && forall s :: s in row <==> s == row[0];
      assert f.Internal(row[0]) <==> h.blocks[row[0]].blockType == INTERNAL;
    }
  }

  /** The three branch cases of the scan loop: the successors, then the flags. */
  method EndInBranch(cfg: ControlFlowGraph, code: seq<Insn>, b: nat, pc: nat) returns (ok: bool)
    requires Scanning(code, cfg.Value(), b, pc) && pc < |code| && code[pc].kind.Branch?
    requires b < |cfg.blocks| <= |cfg.psTable|
    modifies cfg
    decreases Unused(code, cfg.Value()), 3
    ensures old(EndIn(code, cfg.Value(), b, pc)) == if ok then Some(cfg.Value()) else None
    ensures ok ==> b < |cfg.blocks| <= |cfg.psTable| && EndsAs(cfg.Value(), code, b, pc)
  {
    hide Reachable, HasCreator, Unused, Settled, Grounded, Taken, Follow, SettledFrom, BranchRow, Followed, TakenLands,
         EndsAs;
    ghost var g := cfg.Value();
    var kind := code[pc].kind;
    ScanningReachable(code, g, b, pc);
    GroundedSize(code, g);
    TakenSettles(code, g, b, pc);
    ok := TakeBranch(cfg, code, b, pc);
    if !ok { return; }
    ghost var h := cfg.Value();
    TakenKeeps(code, g, h, b, pc);
    ExtendsUnused(code, g, h);
    if kind.Continues() {
      if pc + 1 >= |code| { return false; }
      StepReachable(code, pc, pc + 1);
      FollowSettles(code, h, b, pc, pc + 1);
      ok := FollowInternal(cfg, code, b, pc, pc + 1);
      if !ok { return; }
      FollowedTwice(code, g, h, cfg.Value(), b, pc);
      UnsetFlags(code, g, cfg.Value(), b, pc);
      FlagsEnd(code, g, cfg.Value(), b, pc);
      if kind.link { cfg.MarkEnding(b, false, true, false); }
    } else {
      TakenBranched(code, g, h, b, pc);
      RowOutside(code, g, h, b, pc);
      UnsetFlags(code, g, h, b, pc);
      FlagsEnd(code, g, h, b, pc);
      var leaves := cfg.HasExternalSuccessor(b);
      if kind.form.ToLR? {
        cfg.MarkEnding(b, true, false, false);
      } else if pc + 1 == |code| && leaves {
        cfg.MarkEnding(b, true, true, true);
      }
    }
    return true;
  }

  /** Where the branch goes when taken: to its target, or somewhere only known at run time. */
  method TakeBranch(cfg: ControlFlowGraph, code: seq<Insn>, b: nat, pc: nat) returns (ok: bool)
    requires ValidCode(code) && Grounded(code, cfg.Value()) && cfg.Value().Internal(b)
    requires pc < |code| && Reachable(code, pc) && code[pc].kind.Branch? && |cfg.blocks| <= |cfg.psTable|
    modifies cfg
    decreases Unused(code, cfg.Value()), 2
    ensures old(Taken(code, cfg.Value(), b, pc)) == if ok then Some(cfg.Value()) else None
  {
    if code[pc].kind.TakesTarget() {
      ok := HandleBranch(cfg, code, b, pc);
    } else {
      cfg.CreateSuccessorOutside(b, pc, RUNTIME);
      ok := true;
    }
  }

  method HandleBranch(cfg: ControlFlowGraph, code: seq<Insn>, b: nat, pc: nat) returns (ok: bool)
    requires ValidCode(code) && Grounded(code, cfg.Value()) && cfg.Value().Internal(b)
    requires pc < |code| && Reachable(code, pc) && code[pc].kind.TakesTarget() && |cfg.blocks| <= |cfg.psTable|
    modifies cfg
    decreases Unused(code, cfg.Value()), 1
    ensures old(Taken(code, cfg.Value(), b, pc)) == if ok then Some(cfg.Value()) else None
  {
    match code[pc].target
    case Unresolved =>
      ok := false;
    case Inside(position) =>
      StepReachable(code, pc, position);
      ok := FollowInternal(cfg, code, b, pc, position);
    case Outside =>
      cfg.CreateSuccessorOutside(b, pc, EXTERNAL);
      ok := true;
  }

  /** tryCreateSuccessorInternal, and the scan of the block if it is new. */
  method FollowInternal(cfg: ControlFlowGraph, code: seq<Insn>, b: nat, pc: nat, position: nat) returns (ok: bool)
    requires ValidCode(code) && Grounded(code, cfg.Value()) && cfg.Value().Internal(b)
    requires position < |code| && Reachable(code, position) && |cfg.blocks| <= |cfg.psTable|
    modifies cfg
    decreases Unused(code, cfg.Value()), 0
    ensures old(Follow(code, cfg.Value(), b, pc, position)) == if ok then Some(cfg.Value()) else None
  {
    hide Reachable, HasCreator, Unused, Settled, Scan, SettledFrom;
    ghost var g := cfg.Value();
    ok := true;
    var maybeNewBlock := cfg.TryCreateSuccessorInternal(b, pc, position);
    if maybeNewBlock >= 0 {
      NewLinked(code, g, b, pc, NewBlock(position, INTERNAL));
      NewUses(code, g, b, pc, position);
      JustCreated(code, cfg.Value(), maybeNewBlock, position);
      ok := ScanBlock(cfg, code, maybeNewBlock);
    }
  }
}
