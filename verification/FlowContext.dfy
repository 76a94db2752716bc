/** Register state of the data-flow pass (include/ppc2cpp/data_flow/FlowContext.hpp). */
module FlowContexts {
  import opened Wrappers
  import opened MachineCode

  /** One storage cell of a context. */
  datatype Cell = Gpr(n: nat) | Fpr(n: nat) | CrBit(n: nat) | Gqr(n: nat) | Ps1(n: nat) | Lr | Ctr | Xer | Fpscr

  const SPR_VALUE_LR := 8
  const SPR_VALUE_XER := 1
  const SPR_VALUE_CTR := 9

  predicate IsCell(c: Cell) {
    match c
    case Gpr(n) => n < 32
    case Fpr(n) => n < 32
    case CrBit(n) => n < 32
    case Gqr(n) => n < 8
    case Ps1(n) => n < 32
    case _ => true
  }

  ghost predicate IsAllCells(s: set<Cell>) {
    forall c :: c in s <==> IsCell(c)
  }

  /** All cells, listed. */
  function CellSet(): (s: set<Cell>)
    ensures IsAllCells(s)
  {
    (set i: nat | i < 32 :: Gpr(i)) + (set i: nat | i < 32 :: Fpr(i)) + (set i: nat | i < 32 :: CrBit(i))
    + (set i: nat | i < 8 :: Gqr(i)) + (set i: nat | i < 32 :: Ps1(i)) + {Lr, Ctr, Xer, Fpscr}
  }

  /** The same, by its elements. */
  ghost function AllCells(): (s: set<Cell>)
    ensures forall c :: c in s <==> IsCell(c)
  {
    assert IsAllCells(CellSet());
    var s :| IsAllCells(s);
    s
  }

  /** The cell of a register location; None where the lookup throws or the register number is out of range.
      Quantization registers have two names. */
  function CellOf(loc: Location): (r: Option<Cell>)
    ensures r.Some? ==> r.value in AllCells()
  {
    hide AllCells, CellSet;
    var v := loc.value;
    match loc.space
    case GPR => if 0 <= v < 32 then Some(Gpr(v)) else None
    case FPR => if 0 <= v < 32 then Some(Fpr(v)) else None
    case CR_BIT => if 0 <= v < 32 then Some(CrBit(v)) else None
    case GQR => if 0 <= v < 8 then Some(Gqr(v)) else None
    case PS1 => if 0 <= v < 32 then Some(Ps1(v)) else None
    case SPR =>
      if v == SPR_VALUE_XER then Some(Xer)
      else if v == SPR_VALUE_LR then Some(Lr)
      else if v == SPR_VALUE_CTR then Some(Ctr)
      else if 912 <= v < 920 then Some(Gqr(v - 912))
      else None
  }

  predicate Known(loc: Location) { CellOf(loc).Some? }

  /** The registers a context has: 32 of each bank, 8 for quantization, and XER, LR, CTR and the quantization
      registers by their numbers as special-purpose registers. */
  lemma KnownRegister(loc: Location)
    ensures Known(loc) <==>
      match loc.space
      case GQR => 0 <= loc.value < 8
      case SPR => loc.value in {1, 8, 9} || 912 <= loc.value < 920
      case _ => 0 <= loc.value < 32
  {
    hide AllCells;
  }

  /** A quantization register and its special-purpose number. */
  predicate Aliases(a: Location, b: Location) {
    a.space == GQR && b.space == SPR && b.value == a.value + 912
  }

  /** Two names of one register. */
  predicate SameRegister(a: Location, b: Location) { a == b || Aliases(a, b) || Aliases(b, a) }

  /** Different registers have different cells. */
  lemma SameCellIff(a: Location, b: Location)
    requires Known(a) && Known(b)
    ensures CellOf(a) == CellOf(b) <==> SameRegister(a, b)
  {
    hide AllCells;
  }

  predicate AllKnown(locs: seq<Location>) {
    forall i :: 0 <= i < |locs| ==> Known(locs[i])
  }

  /** The cells some location of a list names. */
  ghost predicate Names(locs: seq<Location>, c: Cell) {
    exists i :: 0 <= i < |locs| && CellOf(locs[i]) == Some(c)
  }

  /** Some name in the list is one of the register's. */
  ghost predicate Lists(locs: seq<Location>, loc: Location) {
    exists l :: l in locs && SameRegister(l, loc)
  }

  lemma ListsIffNames(locs: seq<Location>, loc: Location)
    requires AllKnown(locs) && Known(loc)
    ensures Lists(locs, loc) <==> Names(locs, CellOf(loc).value)
  {
    hide AllCells, CellOf, SameRegister;
    forall i | 0 <= i < |locs|
      ensures Known(locs[i]) && (SameRegister(locs[i], loc) <==> CellOf(locs[i]) == Some(CellOf(loc).value))
    {
      assert Known(locs[i]);
      SameCellIff(locs[i], loc);
    }
    if Names(locs, CellOf(loc).value) {
      var i :| 0 <= i < |locs| && CellOf(locs[i]) == Some(CellOf(loc).value);
      assert locs[i] in locs && SameRegister(locs[i], loc);
    }
  }

  /** A context as a value: the definitions held by each cell. */
  type Context<T> = map<Cell, set<T>>

  ghost predicate Total<T>(ctx: Context<T>) { ctx.Keys == AllCells() }

  function EmptyContext<T>(): (ctx: Context<T>)
    ensures Total(ctx)
  {
    hide AllCells, CellSet;
    map c | c in CellSet() :: {}
  }

  /** The number of definitions per cell, by which changes are noticed. */
  function Sizes<T>(ctx: Context<T>): map<Cell, nat> {
    map c | c in ctx :: |ctx[c]|
  }

  ghost predicate Within<T>(a: Context<T>, b: Context<T>) {
    Total(a) && Total(b) && forall c :: c in AllCells() ==> a[c] <= b[c]
  }

  lemma SubsetSize<T>(a: set<T>, b: set<T>)
    requires a <= b
    ensures |a| <= |b| && (|a| == |b| ==> a == b)
  {
    assert b == a + (b - a);
  }

  /** If a context has only grown, equal sizes mean equal contexts. */
  lemma SizesDetectGrowth<T>(a: Context<T>, b: Context<T>)
    requires Within(a, b)
    ensures Sizes(a) == Sizes(b) <==> a == b
  {
    hide AllCells, CellSet;
    if Sizes(a) == Sizes(b) {
      forall c | c in AllCells()
        ensures a[c] == b[c]
      {
        assert Sizes(a)[c] == |a[c]| && Sizes(b)[c] == |b[c]|;
        SubsetSize(a[c], b[c]);
      }
    }
  }

  /** Without that, they need not be: a definition may have been replaced. */
  lemma SizesMissReplacement()
    ensures exists a: Context<nat>, b: Context<nat> :: Total(a) && Total(b) && Sizes(a) == Sizes(b) && a != b
  {
    hide AllCells, CellSet;
    var a: Context<nat> := EmptyContext()[Lr := {0}];
    var b: Context<nat> := EmptyContext()[Lr := {1}];
    assert Sizes(a) == Sizes(b);
    assert 0 in a[Lr] && 0 !in b[Lr];
  }

  class FlowContext {
    var gprs: seq<set<nat>>
    var cr: seq<set<nat>>
    var lr: set<nat>
    var ctr: set<nat>
    var xer: set<nat>
    var fprs: seq<set<nat>>
    var fpscr: set<nat>
    var gqrs: seq<set<nat>>
    var ps1s: seq<set<nat>>

    ghost predicate Valid()
      reads this
    {
      |gprs| == |cr| == |fprs| == |ps1s| == 32 && |gqrs| == 8
    }

    function At(c: Cell): set<nat>
      requires Valid() && c in AllCells()
      reads this
    {
      hide AllCells, CellSet;
      match c
      case Gpr(n) => gprs[n]
      case Fpr(n) => fprs[n]
      case CrBit(n) => cr[n]
      case Gqr(n) => gqrs[n]
      case Ps1(n) => ps1s[n]
      case Lr => lr
      case Ctr => ctr
      case Xer => xer
      case Fpscr => fpscr
    }

    function Value(): (ctx: Context<nat>)
      requires Valid()
      reads this
      ensures Total(ctx)
    {
      hide AllCells, CellSet;
      map c | c in CellSet() :: At(c)
    }

    constructor ()
      ensures Valid() && Value() == EmptyContext()
    {
      hide AllCells, CellSet;
      gprs, fprs, cr, ps1s := seq(32, _ => {}), seq(32, _ => {}), seq(32, _ => {}), seq(32, _ => {});
      gqrs := seq(8, _ => {});
      lr, ctr, xer, fpscr := {}, {}, {}, {};
    }

    /** Cell by cell union. */
    method ContextUnion(other: Context<nat>)
      requires Valid() && Total(other)
      modifies this
      ensures Valid()
      ensures forall c :: c in AllCells() ==> At(c) == old(At(c)) + other[c]
    {
      hide AllCells, CellSet;
      UnionArrays(other);
      lr, ctr, xer, fpscr := lr + other[Lr], ctr + other[Ctr], xer + other[Xer], fpscr + other[Fpscr];
    }

    method UnionArrays(other: Context<nat>)
      requires Valid() && Total(other)
      modifies `gprs, `fprs, `cr, `ps1s, `gqrs
      ensures Valid()
      ensures forall i :: 0 <= i < 32 ==> gprs[i] == old(gprs[i]) + other[Gpr(i)]
      ensures forall i :: 0 <= i < 32 ==> fprs[i] == old(fprs[i]) + other[Fpr(i)]
      ensures forall i :: 0 <= i < 32 ==> cr[i] == old(cr[i]) + other[CrBit(i)]
      ensures forall i :: 0 <= i < 32 ==> ps1s[i] == old(ps1s[i]) + other[Ps1(i)]
      ensures forall i :: 0 <= i < 8 ==> gqrs[i] == old(gqrs[i]) + other[Gqr(i)]
    {
      hide AllCells, CellSet;
      gprs := UnionBank(gprs, seq(32, i requires 0 <= i < 32 => other[Gpr(i)]));
      fprs := UnionBank(fprs, seq(32, i requires 0 <= i < 32 => other[Fpr(i)]));
      cr := UnionBank(cr, seq(32, i requires 0 <= i < 32 => other[CrBit(i)]));
      ps1s := UnionBank(ps1s, seq(32, i requires 0 <= i < 32 => other[Ps1(i)]));
      gqrs := UnionBank(gqrs, seq(8, i requires 0 <= i < 8 => other[Gqr(i)]));
    }

    /** One of the five loops over an array of registers. */
    static method UnionBank(a: seq<set<nat>>, b: seq<set<nat>>) returns (r: seq<set<nat>>)
      requires |a| == |b|
      ensures |r| == |a| && forall i :: 0 <= i < |r| ==> r[i] == a[i] + b[i]
    {
      r := a;
      for i := 0 to |a|
        invariant |r| == |a|
        invariant forall k :: 0 <= k < i ==> r[k] == a[k] + b[k]
        invariant forall k :: i <= k < |a| ==> r[k] == a[k]
      {
        r := r[i := r[i] + b[i]];
      }
    }

    /** What a register holds. */
    function GetDefinition(loc: Location): set<nat>
      requires Valid() && Known(loc)
      reads this
    {
      At(CellOf(loc).value)
    }

    /** Replaces what a register's cell holds; every other cell keeps its definitions. */
    method Assign(loc: Location, def: set<nat>)
      requires Valid() && Known(loc)
      modifies this
      ensures Valid()
      ensures forall c :: c in AllCells() ==> At(c) == if c == CellOf(loc).value then def else old(At(c))
      ensures Value() == old(Value())[CellOf(loc).value := def]
    {
      hide AllCells, CellSet;
      match CellOf(loc).value
      case Gpr(n) => gprs := gprs[n := def];
      case Fpr(n) => fprs := fprs[n := def];
      case CrBit(n) => cr := cr[n := def];
      case Gqr(n) => gqrs := gqrs[n := def];
      case Ps1(n) => ps1s := ps1s[n := def];
      case Lr => lr := def;
      case Ctr => ctr := def;
      case Xer => xer := def;
      case Fpscr => fpscr := def;
    }

    method SetDefinition(loc: Location, node: nat)
      requires Valid() && Known(loc)
      modifies this
      ensures Valid() && Value() == old(Value())[CellOf(loc).value := {node}]
      ensures forall l :: Known(l) ==>
                GetDefinition(l) == if SameRegister(l, loc) then {node} else old(GetDefinition(l))
    {
      hide AllCells, CellOf;
      Assign(loc, {node});
      forall l | Known(l) { SameCellIff(l, loc); }
    }

    method KillDefinition(loc: Location)
      requires Valid() && Known(loc)
      modifies this
      ensures Valid() && Value() == old(Value())[CellOf(loc).value := {}]
      ensures forall l :: Known(l) ==>
                GetDefinition(l) == if SameRegister(l, loc) then {} else old(GetDefinition(l))
    {
      hide AllCells, CellOf;
      Assign(loc, {});
      forall l | Known(l) { SameCellIff(l, loc); }
    }
  }
}
