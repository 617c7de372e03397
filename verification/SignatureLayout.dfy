/**
  The generator and the macro runtime together: where in memory the generated
  program's signature words really are, once each instruction's template ends in
  one of the RVTEST_SIGUPD macros with the instruction's offset.
 */
module SignatureLayout {
  import opened Wrappers
  import opened RegisterAllocation
  import opened RegisterPasses
  import opened TestEmission
  import opened SignatureUpdate
  import opened SignatureImplicit

  /** The region instruction i stores into. */
  function TagAt(s: seq<Instr>, c: Config, i: nat): Label
    requires i < |s| && forall j | 0 <= j < |s| :: s[j].swreg.Some?
  {
    Current(Turns(s, c, i + 1))
  }

  lemma {:induction false} OneStoreEach(code: seq<Item>, s: seq<Instr>, c: Config)
    requires InRange(code, s)
    ensures |Run(code, s, c).stores| == |Insts(code)|
  {
    if code != [] {
      OneStoreEach(code[..|code| - 1], s, c);
    }
  }

  lemma {:induction false} RunGrows(code: seq<Item>, item: Item, s: seq<Instr>, c: Config)
    requires InRange(code, s) && (item.Inst? ==> item.i < |s|)
    ensures InRange(code + [item], s) && Run(code, s, c).stores <= Run(code + [item], s, c).stores
  {
  }

  /** Both halves of a turn only add to what the program stores. */
  lemma {:induction false} ValuesGrow(e: Emitter, s: seq<Instr>, c: Config, i: nat)
    requires i < |s| && InRange(e.code, s)
    ensures InRange(EmitValues(e, s, i).code, s)
    ensures Run(e.code, s, c).stores <= Run(EmitValues(e, s, i).code, s, c).stores
  {
    if EmitValues(e, s, i).code != e.code {
      RunGrows(e.code, ValBase(s[i].valReg.value, e.dsets), s, c);
    }
  }

  lemma {:induction false} SignatureGrows(e: Emitter, s: seq<Instr>, c: Config, i: nat)
    requires i < |s| && s[i].swreg.Some? && InRange(e.code, s)
    ensures InRange(EmitSignature(e, s, i).code, s)
    ensures Run(e.code, s, c).stores <= Run(EmitSignature(e, s, i).code, s, c).stores
  {
    var e1 := Rebase(e, s, i);
    if e1.code != e.code {
      RunGrows(e.code, SigBase(e1.sreg, Current(e1)), s, c);
    }
    RunGrows(e1.code, Inst(i), s, c);
  }

  /** The store of the last instruction so far. */
  lemma {:induction false} LastStore(s: seq<Instr>, c: Config, i: nat)
    requires i < |s| && Ready(s, c)
    ensures forall j | 0 <= j < |s| :: s[j].swreg.Some?
    ensures InRange(Turns(s, c, i + 1).code, s)
    ensures var stores := Run(Turns(s, c, i + 1).code, s, c).stores;
            |stores| == i + 1 && stores[i] == SigSlot(TagAt(s, c, i), s[i].offset)
  {
    TurnsEmitted(s, c, i + 1);
    var e := Turns(s, c, i + 1);
    OneStoreEach(e.code, s, c);
    RegionSlotsAt(Current(e), e.count, c.sigStride);
  }

  ghost predicate AllPointed(s: seq<Instr>) {
    forall j | 0 <= j < |s| :: s[j].swreg.Some?
  }

  /** What the first n instructions store. */
  function StoresOf(s: seq<Instr>, c: Config, n: nat): seq<Slot>
    requires n <= |s| && |s| > 0 && AllPointed(s) && InRange(Turns(s, c, n).code, s)
  {
    Run(Turns(s, c, n).code, s, c).stores
  }

  lemma {:induction false} StoresExtend(s: seq<Instr>, c: Config, n: nat)
    requires n < |s| && AllPointed(s) && InRange(Turns(s, c, n).code, s)
    ensures InRange(Turns(s, c, n + 1).code, s) && StoresOf(s, c, n) <= StoresOf(s, c, n + 1)
  {
    var e := Turns(s, c, n);
    if c.hasVal { ValuesGrow(e, s, c, n); }
    SignatureGrows(if c.hasVal then EmitValues(e, s, n) else e, s, c, n);
  }

  /** Instruction i stores into its region, at its own offset. */
  lemma {:induction false} StoreAt(s: seq<Instr>, c: Config, i: nat, n: nat)
    requires i < n <= |s| && Ready(s, c)
    ensures AllPointed(s) && InRange(Turns(s, c, n).code, s)
    ensures |StoresOf(s, c, n)| == n && StoresOf(s, c, n)[i] == SigSlot(TagAt(s, c, i), s[i].offset)
    decreases n
  {
    LastStore(s, c, n - 1);
    if i < n - 1 {
      StoreAt(s, c, i, n - 1);
      StoresExtend(s, c, n - 1);
    }
  }

  /** The region changes only where the offset starts over. */
  lemma {:induction false} TagStays(s: seq<Instr>, c: Config, i: nat)
    requires 0 < i < |s| && Ready(s, c) && s[i].offset != 0
    ensures forall j | 0 <= j < |s| :: s[j].swreg.Some?
    ensures TagAt(s, c, i) == TagAt(s, c, i - 1)
  {
    TurnsEmitted(s, c, i);
    assert ReadyAt(s, c, i);
    var e := Turns(s, c, i);
    Ahead(e, s, c, i);
    var e1 := if c.hasVal then EmitValues(e, s, i) else e;
    assert Rebase(e1, s, i) == e1.(count := e1.count + 1);
  }

  /** The signature entries of the generated program: labels by address, offsets from swreg, a macro's words each. */
  ghost predicate ProgramEntries(es: seq<Entry>, s: seq<Instr>, c: Config, address: Label -> int)
    requires forall j | 0 <= j < |s| :: s[j].swreg.Some?
  {
    && |es| == |s|
    && forall k | 0 <= k < |s| ::
         es[k].address == address(TagAt(s, c, k)) && es[k].offset == s[k].offset && |es[k].vs| <= c.sigStride
  }

  /** Where a slot of the abstract layout is in memory. */
  function Address(slot: Slot, unit: nat, address: Label -> int): int {
    if slot.SigSlot? then address(slot.tag) + slot.offset * unit else 0
  }

  /**
    Every word a generated program stores lands in the slot that its layout gives
    the instruction, word j at j units into it, and every store is encodable.  The
    unit is the width the program is assembled for, which the wrap test's may exceed.
   */
  lemma {:induction false} ProgramLands(s0: seq<Instr>, s: seq<Instr>, c: Config, g: Sig, unit: nat, fix: nat,
                                        address: Label -> int, es: seq<Entry>)
    requires Fresh(s0, c) && s == AfterVal(s0, c)
    requires forall j | 0 <= j < |s| :: s[j].swreg.Some?
    requires ProgramEntries(es, s, c, address) && SaneEntries(es, unit, fix) && unit <= c.sigSize
    ensures Landed(g, Entries(g, unit, fix, es), Slots(es, unit))
    ensures |s| > 0 ==> InRange(Turns(s, c, |s|).code, s) && |Run(Turns(s, c, |s|).code, s, c).stores| == |s|
    ensures |s| > 0 ==> forall k | 0 <= k < |s| ::
              es[k].address + es[k].offset * unit
                  == Address(Run(Turns(s, c, |s|).code, s, c).stores[k], unit, address)
  {
    AllocationReady(s0, c);
    forall k | 0 <= k < |s|
      ensures es[k].offset == AfterSw(s0, c)[k].offset
      ensures InRange(Turns(s, c, |s|).code, s) && |Run(Turns(s, c, |s|).code, s, c).stores| == |s|
      ensures es[k].address + es[k].offset * unit
              == Address(Run(Turns(s, c, |s|).code, s, c).stores[k], unit, address)
    {
      PickedAt(s0, c, k);
      PickedSafe(s0[k], AfterSw(s0, c)[k], AfterTest(s0, c)[k], s[k], c);
      StoreAt(s, c, k, |s|);
    }
    forall k | 0 < k < |s| && es[k].offset != 0 ensures es[k].address == es[k - 1].address {
      TagStays(s, c, k);
    }
    GeneratedInPlace(g, unit, fix, es, s0, c);
  }

  /** A region's entries carry its address. */
  ghost predicate Addressed(es: seq<Entry>, s: seq<Instr>, c: Config, address: Label -> int)
    requires forall j | 0 <= j < |s| :: s[j].swreg.Some?
  {
    |es| == |s| && forall k | 0 <= k < |s| :: es[k].address == address(TagAt(s, c, k)) && es[k].offset == s[k].offset
  }

  lemma {:induction false} AddressedEntries(s0: seq<Instr>, s: seq<Instr>, c: Config, address: Label -> int,
                                            es: seq<Entry>)
    requires Fresh(s0, c) && s == AfterVal(s0, c) && (forall j | 0 <= j < |s| :: s[j].swreg.Some?)
             && Addressed(es, s, c, address)
    ensures EntriesFor(es, AfterSw(s0, c))
  {
    AllocationReady(s0, c);
    forall k | 0 <= k < |s| ensures es[k].offset == AfterSw(s0, c)[k].offset {
      PickedAt(s0, c, k);
      PickedSafe(s0[k], AfterSw(s0, c)[k], AfterTest(s0, c)[k], s[k], c);
    }
    forall k | 0 < k < |s| && es[k].offset != 0 ensures es[k].address == es[k - 1].address {
      TagStays(s, c, k);
    }
  }

  /**
    Templates without an offset: their words lie one after the other from the
    region's label on, every store is encodable, and each instruction's words end
    no later than the slot its layout gives it.
   */
  lemma {:induction false} ProgramLandsImplicit(s0: seq<Instr>, s: seq<Instr>, c: Config, g: Sig, p: Macro,
                                                address: Label -> int, es: seq<Entry>)
    requires Fresh(s0, c) && s == AfterVal(s0, c) && p.size == c.sigSize && p.stride == c.sigStride
    requires (forall j | 0 <= j < |s| :: s[j].swreg.Some?) && Fitting(p) && Uses(es, p) && Addressed(es, s, c, address)
    ensures Landed(g, Implicit(g, p, es), ImplicitSlots(es, p)) && InSlots(es, p)
  {
    AddressedEntries(s0, s, c, address, es);
    GeneratedImplicit(g, p, es, s0, c);
  }
}
