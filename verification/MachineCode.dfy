/** A function's instructions, and the control flow between them that the basic blocks must reproduce. */
module MachineCode {
  import opened Instructions

  /** What `resolveTarget` and `Function::contains` say of a branch: no location, a location outside the
      function, or an instruction index inside it. */
  datatype Target = Unresolved | Outside | Inside(position: nat)

  datatype MemorySpace = GPR | FPR | CR_BIT | GQR | PS1 | SPR

  datatype Location = Location(space: MemorySpace, value: int)

  /** A reference to a named global symbol. */
  datatype Relocation = Relocation(symbol: string, relType: int, addend: int)

  /** One instruction: its branch class, its resolved target if it takes one, its opcode, whether it is in
      the set of stores, and its use/define lists. */
  datatype Insn = Insn(
    kind: Kind, target: Target, opcode: int, isStore: bool,
    refs: seq<Relocation>, imms: seq<int>, inputs: seq<Location>, outputs: seq<Location>)

  /** A non-empty function whose resolved inner targets are instructions of it. */
  predicate ValidCode(code: seq<Insn>) {
    && 0 < |code|
    && forall p :: 0 <= p < |code| && code[p].target.Inside? ==> code[p].target.position < |code|
  }

  /** Control can go from instruction `p` to instruction `q`. */
  predicate Step(code: seq<Insn>, p: nat, q: nat) {
    && p < |code| && q < |code|
    && (|| (code[p].kind.Continues() && q == p + 1)
        || (code[p].kind.TakesTarget() && code[p].target == Inside(q)))
  }

  /** The branch classes are those of a function's words. */
  predicate Encoded(code: seq<Insn>, words: seq<Word>) {
    |code| == |words| && forall p :: 0 <= p < |code| ==> code[p].kind == Classify(words[p])
  }

  /** Control flow in bits of the words: to the next instruction, unless this is a branch that neither links nor has a
      condition, and to the target of a branch that names one. */
  lemma StepInBits(code: seq<Insn>, words: seq<Word>, p: nat, q: nat)
    requires Encoded(code, words) && p < |code| && q < |code|
    ensures var w := words[p];
      Step(code, p, q) <==>
        || (q == p + 1 && (!(TargetBits(w) || RegisterBits(w)) || LinkBit(w) || ConditionBits(w)))
        || (code[p].target == Inside(q) && TargetBits(w))
  {
    hide Classify, TargetBits, RegisterBits, LinkBit, ConditionBits, Kind.Continues, Kind.TakesTarget;
    BranchInBits(words[p]);
    ContinuesInBits(words[p]);
  }

  ghost predicate IsWalk(code: seq<Insn>, w: seq<nat>) {
    && 0 < |w| && w[0] == 0 && 0 < |code|
    && forall i :: 0 <= i < |w| - 1 ==> Step(code, w[i], w[i + 1])
  }

  ghost predicate Reachable(code: seq<Insn>, p: nat) {
    exists w :: IsWalk(code, w) && w[|w| - 1] == p
  }

  /** The construction stops here: the target has no location, or an assertion finds control running past
      the last instruction. */
  predicate Aborts(code: seq<Insn>, p: nat)
    requires p < |code|
  {
    || (code[p].kind.TakesTarget() && code[p].target.Unresolved?)
    || (code[p].kind.Branch? && code[p].kind.Continues() && p + 1 == |code|)
  }

  lemma AbortsInBits(code: seq<Insn>, words: seq<Word>, p: nat)
    requires Encoded(code, words) && p < |code|
    ensures var w := words[p];
      Aborts(code, p) <==>
        || (TargetBits(w) && code[p].target.Unresolved?)
        || ((TargetBits(w) || RegisterBits(w)) && (LinkBit(w) || ConditionBits(w)) && p + 1 == |code|)
  {
    hide Classify, TargetBits, RegisterBits, LinkBit, ConditionBits, Kind.Continues, Kind.TakesTarget;
    BranchInBits(words[p]);
    ContinuesInBits(words[p]);
  }

  ghost predicate Stuck(code: seq<Insn>) {
    exists p :: 0 <= p < |code| && Reachable(code, p) && Aborts(code, p)
  }

  /** Control runs past the last instruction without any branch, which no assertion notices. */
  ghost predicate FallsOff(code: seq<Insn>) {
    0 < |code| && Reachable(code, |code| - 1) && code[|code| - 1].kind.Plain?
  }

  lemma EntryReachable(code: seq<Insn>)
    requires 0 < |code|
    ensures Reachable(code, 0)
  {
    assert IsWalk(code, [0]);
  }

  lemma StepReachable(code: seq<Insn>, p: nat, q: nat)
    requires Reachable(code, p) && Step(code, p, q)
    ensures Reachable(code, q)
  {
    var w :| IsWalk(code, w) && w[|w| - 1] == p;
    var w' := w + [q];
    assert IsWalk(code, w') && w'[|w'| - 1] == q;
  }

  /** Straight-line code is reachable as far as it goes. */
  lemma {:induction false} StraightReachable(code: seq<Insn>, p: nat, q: nat)
    requires p <= q < |code| && Reachable(code, p)
    requires forall k :: p <= k < q ==> code[k].kind.Plain?
    ensures Reachable(code, q)
    decreases q - p
  {
    if p < q {
      StraightReachable(code, p, q - 1);
      StepReachable(code, q - 1, q);
    }
  }
}
