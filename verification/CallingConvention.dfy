/** The registers a call clears and defines (src/data_flow/PpcCallingConvention.cpp).  The lists are sets in the code,
    so their order here is one of many. */
module CallingConvention {
  import opened MachineCode
  import opened FlowContexts

  function Registers(space: MemorySpace, first: nat, end: nat): seq<Location>
    requires first <= end
  {
    seq(end - first, i requires 0 <= i < end - first => Location(space, first + i))
  }

  function KilledByCall(): seq<Location> {
    [Location(GPR, 0)] + Registers(GPR, 3, 13) + Registers(FPR, 0, 14)
    + Registers(CR_BIT, 0, 9) + Registers(CR_BIT, 21, 32)
    + [Location(SPR, SPR_VALUE_LR), Location(SPR, SPR_VALUE_XER), Location(SPR, SPR_VALUE_CTR)]
  }

  function DefinedByCall(): seq<Location> {
    [Location(GPR, 3), Location(GPR, 4), Location(FPR, 1)]
  }

  /** Fields CR2, CR3 and CR4 of the condition register survive a call; they are bits 8 to 19. */
  predicate Volatile(bit: nat) { bit < 8 || 20 <= bit < 32 }

  lemma ConventionKnown()
    ensures AllKnown(KilledByCall()) && AllKnown(DefinedByCall())
  {
    hide AllCells;
  }

  lemma InRegisters(space: MemorySpace, first: nat, end: nat, loc: Location)
    requires first <= end
    ensures loc in Registers(space, first, end) <==> loc.space == space && first <= loc.value < end
  {
    if loc.space == space && first <= loc.value < end { assert Registers(space, first, end)[loc.value - first] == loc; }
  }

  /** A call clears the general registers 0 and 3 to 12, the floating-point registers 0 to 13, the condition bits but 9
      to 20, LR, XER and CTR.  All other registers keep what they hold: among them the general registers 1 and 2, the
      quantization registers and the second halves of the paired singles. */
  lemma ClearedByCall(loc: Location)
    ensures loc in KilledByCall() <==>
      match loc.space
      case GPR => loc.value == 0 || 3 <= loc.value <= 12
      case FPR => 0 <= loc.value <= 13
      case CR_BIT => 0 <= loc.value < 32 && !(9 <= loc.value <= 20)
      case SPR => loc.value in {1, 8, 9}
      case _ => false
  {
    hide Registers;
    InRegisters(GPR, 3, 13, loc);
    InRegisters(FPR, 0, 14, loc);
    InRegisters(CR_BIT, 0, 9, loc);
    InRegisters(CR_BIT, 21, 32, loc);
  }

  /** A call returns values in general registers 3 and 4 and floating-point register 1, and clears these first. */
  lemma ReturnedByCall(loc: Location)
    ensures loc in DefinedByCall() <==>
      (loc.space == GPR && loc.value in {3, 4}) || (loc.space == FPR && loc.value == 1)
    ensures loc in DefinedByCall() ==> loc in KilledByCall()
  {
    ClearedByCall(loc);
  }

  /** The list clears the volatile condition bits, except that it clears bit 8 of CR2 and spares bit 20 of CR5. */
  lemma ConditionBitsCleared(bit: nat)
    requires bit < 32
    ensures Location(CR_BIT, bit) in KilledByCall() <==> (Volatile(bit) && bit != 20) || bit == 8
  {
    ClearedByCall(Location(CR_BIT, bit));
  }
}
