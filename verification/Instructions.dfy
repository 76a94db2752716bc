/** Branch classification of 32-bit instruction words (include/ppc2cpp/common/insn_properties.h). */
module Instructions {

  type Word = bv32

  function Op(w: Word): Word { (w >> 26) & 0x3f }

  function Xop(w: Word): Word { (w >> 1) & 0x3ff }

  function Bo(w: Word): Word { (w >> 21) & 0x1f }

  predicate IsBranch(w: Word) {
    Op(w) == 18 || Op(w) == 16 || (Op(w) == 19 && (Xop(w) == 528 || Xop(w) == 16))
  }

  predicate IsLink(w: Word) { w & 1 == 1 }

  predicate IsBranchUnconditional(w: Word) { Op(w) == 18 }

  predicate IsBranchConditional(w: Word) { Op(w) == 16 }

  predicate IsBranchToLR(w: Word) { Op(w) == 19 && Xop(w) == 16 }

  predicate IsBranchToCTR(w: Word) { Op(w) == 19 && Xop(w) == 528 }

  predicate IsBranchConditionUnconditional(w: Word) { (Bo(w) >> 2) & 5 == 5 }

  datatype Form = Direct | Conditional | ToLR | ToCTR

  /** What the block scan and the data-flow pass read off an instruction word.  An I-form branch has
      no BO field, so it counts as always taken. */
  datatype Kind = Plain | Branch(form: Form, link: bool, always: bool) {

    /** The branch names its target in the word itself. */
    predicate TakesTarget() { Branch? && (form.Direct? || form.Conditional?) }

    /** Control can go on to the next instruction: no branch, a call that returns, or a branch not taken. */
    predicate Continues() { Plain? || link || !always }
  }

  /** The tests of the scan loop, in its order. */
  function Classify(w: Word): Kind {
    if IsBranchUnconditional(w) then Branch(Direct, IsLink(w), true)
    else if IsBranchConditional(w) then Branch(Conditional, IsLink(w), IsBranchConditionUnconditional(w))
    else if IsBranchToLR(w) then Branch(ToLR, IsLink(w), IsBranchConditionUnconditional(w))
    else if IsBranchToCTR(w) then Branch(ToCTR, IsLink(w), IsBranchConditionUnconditional(w))
    else Plain
  }

  /** The four tests of the scan and the single test of the data-flow pass agree on every word, the four are
      mutually exclusive (so their order does not matter), and "always" is the BO pattern 1z1zz of
      section 2.4 of the Power ISA, Book I. */
  lemma ScanTestsAgree(w: Word)
    ensures IsBranch(w) <==> Classify(w).Branch?
    ensures IsBranchUnconditional(w) <==> Classify(w).Branch? && Classify(w).form == Direct
    ensures IsBranchConditional(w) <==> Classify(w).Branch? && Classify(w).form == Conditional
    ensures IsBranchToLR(w) <==> Classify(w).Branch? && Classify(w).form == ToLR
    ensures IsBranchToCTR(w) <==> Classify(w).Branch? && Classify(w).form == ToCTR
    ensures IsBranchConditionUnconditional(w) <==> (w >> 25) & 1 == 1 && (w >> 23) & 1 == 1
  {
    BoPattern(w);
  }

  lemma BoPattern(w: Word)
    ensures (((w >> 21) & 0x1f) >> 2) & 5 == 5 <==> (w >> 25) & 1 == 1 && (w >> 23) & 1 == 1
  {
  }

  // ---- What the classification says of the word's bits ----

  /** b and bc: the upper six bits are 18 or 16. */
  predicate TargetBits(w: Word) { w & 0xfc000000 == 0x48000000 || w & 0xfc000000 == 0x40000000 }

  /** bclr and bcctr: they are 19, and the ten bits above the last are 16 or 528. */
  predicate RegisterBits(w: Word) { w & 0xfc0007fe == 0x4c000020 || w & 0xfc0007fe == 0x4c000420 }

  predicate LinkBit(w: Word) { w & 1 == 1 }

  /** All but b may be conditional, and are unless the first and the third bit of BO are set. */
  predicate ConditionBits(w: Word) { w & 0xfc000000 != 0x48000000 && w & 0x02800000 != 0x02800000 }

  /** The branches, those that name their target, and those to LR. */
  lemma BranchInBits(w: Word)
    ensures Classify(w).Branch? <==> TargetBits(w) || RegisterBits(w)
    ensures Classify(w).TakesTarget() <==> TargetBits(w)
    ensures Classify(w).Branch? && Classify(w).form.ToLR? <==> w & 0xfc0007fe == 0x4c000020
  {
    hide Op, Xop;
    OpInBits(w);
    XopInBits(w);
  }

  lemma OpInBits(w: Word)
    ensures Op(w) == 18 <==> w & 0xfc000000 == 0x48000000
    ensures Op(w) == 16 <==> w & 0xfc000000 == 0x40000000
    ensures Op(w) == 19 <==> w & 0xfc000000 == 0x4c000000
  {
  }

  lemma XopInBits(w: Word)
    ensures Op(w) == 19 && Xop(w) == 16 <==> w & 0xfc0007fe == 0x4c000020
    ensures Op(w) == 19 && Xop(w) == 528 <==> w & 0xfc0007fe == 0x4c000420
  {
  }

  /** A branch of any form links if its last bit is set.  Control goes on behind a word unless it is a branch that
      neither links nor has a condition. */
  lemma ContinuesInBits(w: Word)
    ensures Classify(w).Branch? ==> (Classify(w).link <==> LinkBit(w)) && (Classify(w).always <==> !ConditionBits(w))
    ensures Classify(w).Continues() <==> !(TargetBits(w) || RegisterBits(w)) || LinkBit(w) || ConditionBits(w)
  {
    BranchInBits(w);
    OpInBits(w);
    AlwaysInBits(w);
  }

  lemma AlwaysInBits(w: Word)
    ensures (((w >> 21) & 0x1f) >> 2) & 5 == 5 <==> w & 0x02800000 == 0x02800000
  {
  }
}
