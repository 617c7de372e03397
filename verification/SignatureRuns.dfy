/**
  The emitted program itself, run on the macro runtime: each RVTEST_SIGBASE loads
  its register and sets the symbol to 0, and each instruction ends in its template's
  signature macro.  Where the words of a whole program land is read off this run.
 */
module SignatureRuns {
  import opened Wrappers
  import opened RegisterAllocation
  import opened RegisterPasses
  import opened TestEmission
  import SU = SignatureUpdate
  import SI = SignatureImplicit
  import SL = SignatureLayout

  /** A template's signature macro: its shape, whether it is given the offset, and what instruction i stores. */
  datatype Template = Template(shape: SU.Shape, explicit: bool, vs: nat -> seq<int>)

  ghost predicate Stores(p: Template, n: nat) {
    SU.Sane(p.shape) && p.shape.unit <= 1024 && forall i | 0 <= i < n :: |p.vs(i)| > 0
  }

  /** The base registers that hold an address, the symbol and the memory, and whether a store missed its base. */
  datatype Machine = Machine(bases: map<Reg, int>, sig: SU.Sig, lost: bool)

  /** An instruction overwrites what it writes. */
  function Forget(bases: map<Reg, int>, ws: seq<Option<Reg>>): map<Reg, int> {
    map r | r in bases && Some(r) !in ws :: bases[r]
  }

  function Execute1(item: Item, s: seq<Instr>, p: Template, address: Label -> int, m: Machine): Machine
    requires Stores(p, |s|) && (item.Inst? ==> item.i < |s|)
  {
    match item
    case SigBase(r, tag) => m.(bases := m.bases[r := address(tag)], sig := SU.SigBase(m.sig, address(tag)))
    case ValBase(r, _) => m.(bases := m.bases - {r})
    case Inst(i) =>
      var bases := Forget(m.bases, Writes(s[i]));
      if s[i].swreg.None? || s[i].swreg.value !in bases then m.(bases := bases, lost := true)
      else
        var r := s[i].swreg.value;
        var offset := if p.explicit then Some(s[i].offset * p.shape.unit) else None;
        var sig := SU.Update(m.sig.(base := bases[r]), p.shape, offset, p.vs(i));
        m.(bases := bases[r := sig.base], sig := sig)
  }

  function Execute(code: seq<Item>, s: seq<Instr>, p: Template, address: Label -> int, m: Machine): Machine
    requires Stores(p, |s|) && InRange(code, s)
  {
    if code == [] then m
    else Execute1(code[|code| - 1], s, p, address, Execute(code[..|code| - 1], s, p, address, m))
  }

  lemma {:induction false} ExecuteSnoc(code: seq<Item>, item: Item, s: seq<Instr>, p: Template, address: Label -> int,
                                       m: Machine)
    requires Stores(p, |s|) && InRange(code, s) && (item.Inst? ==> item.i < |s|)
    ensures InRange(code + [item], s)
    ensures Execute(code + [item], s, p, address, m)
         == Execute1(item, s, p, address, Execute(code, s, p, address, m))
  {
    assert (code + [item])[..|code|] == code;
  }

  // ---------------------------------------------------------------------
  // The run, instruction by instruction
  // ---------------------------------------------------------------------

  /** Instruction i: a new base where its slot is at 0, then its macro. */
  function Entered(g: SU.Sig, s: seq<Instr>, p: Template, at: int, i: nat): SU.Sig
    requires i < |s| && Stores(p, |s|)
  {
    var g1 := if s[i].offset == 0 then SU.SigBase(g, at) else g;
    SU.Update(g1, p.shape, if p.explicit then Some(s[i].offset * p.shape.unit) else None, p.vs(i))
  }

  function Sequence(s: seq<Instr>, c: Config, p: Template, address: Label -> int, g: SU.Sig, n: nat): SU.Sig
    requires n <= |s| && Stores(p, |s|) && SL.AllPointed(s)
  {
    if n == 0 then g
    else Entered(Sequence(s, c, p, address, g, n - 1), s, p, address(SL.TagAt(s, c, n - 1)), n - 1)
  }

  /** The machine has done what the sequence does, and its current base register holds the base. */
  ghost predicate InStep(m: Machine, g: SU.Sig, sreg: Reg) {
    m.sig == g && !m.lost && sreg in m.bases && m.bases[sreg] == g.base
  }

  /** The data pointer set up in between is another register. */
  lemma {:induction false} ValuesRun(e: Emitter, s: seq<Instr>, c: Config, p: Template, address: Label -> int,
                                     m0: Machine, i: nat)
    requires i < |s| && Stores(p, |s|) && InRange(e.code, s) && s[i].swreg.Some?
    requires c.hasVal && s[i].valReg.Some? && s[i].valReg != s[i].swreg
    ensures var e1, m := EmitValues(e, s, i), Execute(e.code, s, p, address, m0);
            && InRange(e1.code, s)
            && var m1 := Execute(e1.code, s, p, address, m0);
               m1.sig == m.sig && m1.lost == m.lost
               && (s[i].swreg.value in m.bases ==>
                     s[i].swreg.value in m1.bases && m1.bases[s[i].swreg.value] == m.bases[s[i].swreg.value])
  {
    ExecuteSnoc(e.code, ValBase(s[i].valReg.value, e.dsets), s, p, address, m0);
  }

  lemma {:induction false} InstRun(s: seq<Instr>, p: Template, address: Label -> int, m: Machine, g: SU.Sig, at: int,
                                   i: nat)
    requires i < |s| && Stores(p, |s|) && s[i].swreg.Some? && s[i].swreg !in Writes(s[i])
    requires InStep(m, if s[i].offset == 0 then SU.SigBase(g, at) else g, s[i].swreg.value)
    ensures InStep(Execute1(Inst(i), s, p, address, m), Entered(g, s, p, at, i), s[i].swreg.value)
  {
    var r := s[i].swreg.value;
    assert r in Forget(m.bases, Writes(s[i])) && m.sig.(base := m.bases[r]) == m.sig;
  }

  lemma {:induction false} SignatureRun(e: Emitter, s: seq<Instr>, p: Template, address: Label -> int, m0: Machine,
                                        g: SU.Sig, i: nat)
    requires i < |s| && Stores(p, |s|) && InRange(e.code, s) && s[i].swreg.Some? && s[i].swreg !in Writes(s[i])
    requires s[i].offset != 0 ==> s[i].swreg.value == e.sreg
    requires var m := Execute(e.code, s, p, address, m0);
             m.sig == g && !m.lost && (s[i].offset != 0 ==> InStep(m, g, e.sreg))
    ensures var e1 := EmitSignature(e, s, i);
            InRange(e1.code, s) && e1.sreg == s[i].swreg.value
            && InStep(Execute(e1.code, s, p, address, m0), Entered(g, s, p, address(Current(e1)), i), e1.sreg)
  {
    var e1 := Rebase(e, s, i);
    var at := address(Current(e1));
    ExecuteSnoc(e.code, SigBase(e1.sreg, Current(e1)), s, p, address, m0);
    assert Current(EmitSignature(e, s, i)) == Current(e1);
    assert InRange(e1.code, s);
    InstRun(s, p, address, Execute(e1.code, s, p, address, m0), g, at, i);
    ExecuteSnoc(e1.code, Inst(i), s, p, address, m0);
  }

  lemma {:induction false} TurnRun(e: Emitter, s: seq<Instr>, c: Config, p: Template, address: Label -> int,
                                   m0: Machine, g: SU.Sig, i: nat)
    requires i < |s| && Stores(p, |s|) && InRange(e.code, s) && PointersSafe(s[i], c)
    requires s[i].offset != 0 ==> s[i].swreg.value == e.sreg
    requires var m := Execute(e.code, s, p, address, m0);
             m.sig == g && !m.lost && (s[i].offset != 0 ==> InStep(m, g, e.sreg))
    ensures var e1 := Turn(e, s, c, i);
            InRange(e1.code, s)
            && InStep(Execute(e1.code, s, p, address, m0), Entered(g, s, p, address(Current(e1)), i), e1.sreg)
  {
    if c.hasVal {
      ValuesRun(e, s, c, p, address, m0, i);
      SignatureRun(EmitValues(e, s, i), s, p, address, m0, g, i);
    } else {
      SignatureRun(e, s, p, address, m0, g, i);
    }
  }

  lemma {:induction false} TurnsInRange(s: seq<Instr>, c: Config, i: nat)
    requires |s| > 0 && i <= |s| && Ready(s, c)
    ensures SL.AllPointed(s) && InRange(Turns(s, c, i).code, s)
  {
    TurnsEmitted(s, c, i);
  }

  /** An instruction whose slot is not at 0 goes on with the pointer in use. */
  ghost predicate GoesOn(e: Emitter, s: seq<Instr>, i: nat)
    requires i < |s| && s[i].swreg.Some?
  {
    s[i].offset != 0 ==> i > 0 && s[i].swreg.value == e.sreg
  }

  lemma {:induction false} PointerGoesOn(s: seq<Instr>, c: Config, i: nat)
    requires i < |s| && Ready(s, c)
    ensures SL.AllPointed(s) && PointersSafe(s[i], c)
    ensures GoesOn(Turns(s, c, i), s, i)
  {
    TurnsEmitted(s, c, i);
    assert ReadyAt(s, c, i);
    Ahead(Turns(s, c, i), s, c, i);
  }

  lemma {:induction false} NextTurn(s: seq<Instr>, c: Config, i: nat)
    requires i < |s| && SL.AllPointed(s)
    ensures Turns(s, c, i + 1) == Turn(Turns(s, c, i), s, c, i)
  {
  }

  /** After i turns, e being the emitter. */
  ghost predicate RunsAlong(e: Emitter, s: seq<Instr>, c: Config, p: Template, address: Label -> int, m0: Machine,
                            i: nat)
    requires i <= |s| && SL.AllPointed(s) && Stores(p, |s|)
  {
    InRange(e.code, s) && Arrived(Execute(e.code, s, p, address, m0), m0, Sequence(s, c, p, address, m0.sig, i), e, i)
  }

  ghost predicate Arrived(m: Machine, m0: Machine, g: SU.Sig, e: Emitter, i: nat) {
    if i == 0 then m == m0 && g == m0.sig else InStep(m, g, e.sreg)
  }

  /** Turn i takes the emitter from one to the other. */
  ghost predicate TakesTo(e: Emitter, e1: Emitter, s: seq<Instr>, c: Config, i: nat)
    requires i < |s| && SL.AllPointed(s)
  {
    && e1 == Turn(e, s, c, i) && Current(e1) == SL.TagAt(s, c, i)
    && PointersSafe(s[i], c) && GoesOn(e, s, i)
  }

  lemma {:induction false} RunsOneMore(e: Emitter, e1: Emitter, s: seq<Instr>, c: Config, p: Template,
                                       address: Label -> int, m0: Machine, i: nat)
    requires i < |s| && SL.AllPointed(s) && Stores(p, |s|) && !m0.lost
    requires RunsAlong(e, s, c, p, address, m0, i)
    requires TakesTo(e, e1, s, c, i)
    ensures RunsAlong(e1, s, c, p, address, m0, i + 1)
  {
    TurnRun(e, s, c, p, address, m0, Sequence(s, c, p, address, m0.sig, i), i);
  }

  lemma {:induction false} TurnTakes(s: seq<Instr>, c: Config, i: nat)
    requires i < |s| && Ready(s, c)
    ensures SL.AllPointed(s) && TakesTo(Turns(s, c, i), Turns(s, c, i + 1), s, c, i)
  {
    PointerGoesOn(s, c, i);
    NextTurn(s, c, i);
  }

  lemma {:induction false} AllRun(es: seq<Emitter>, s: seq<Instr>, c: Config, p: Template, address: Label -> int,
                                  m0: Machine, i: nat)
    requires i < |es| <= |s| + 1 && SL.AllPointed(s) && Stores(p, |s|) && !m0.lost
    requires RunsAlong(es[0], s, c, p, address, m0, 0)
    requires forall k | 0 <= k < |es| - 1 :: TakesTo(es[k], es[k + 1], s, c, k)
    ensures RunsAlong(es[i], s, c, p, address, m0, i)
  {
    if i > 0 {
      AllRun(es, s, c, p, address, m0, i - 1);
      RunsOneMore(es[i - 1], es[i], s, c, p, address, m0, i - 1);
    }
  }

  /** After all turns the emitted program has done what its instructions are to do, one by one. */
  lemma {:induction false} TurnsRun(s: seq<Instr>, c: Config, p: Template, address: Label -> int, m0: Machine)
    requires |s| > 0 && Ready(s, c) && Stores(p, |s|) && !m0.lost
    ensures SL.AllPointed(s) && RunsAlong(Turns(s, c, |s|), s, c, p, address, m0, |s|)
  {
    TurnsInRange(s, c, 0);
    var es := seq(|s| + 1, i requires 0 <= i <= |s| => Turns(s, c, i));
    forall k | 0 <= k < |es| - 1 ensures TakesTo(es[k], es[k + 1], s, c, k) {
      TurnTakes(s, c, k);
    }
    AllRun(es, s, c, p, address, m0, |s|);
  }

  lemma {:induction false} CodeRun(s: seq<Instr>, c: Config, p: Template, address: Label -> int, code: seq<Item>,
                                   m0: Machine)
    requires Ready(s, c) && Stores(p, |s|) && IsCodeOf(code, s, c) && !m0.lost
    ensures SL.AllPointed(s) && InRange(code, s)
    ensures var m := Execute(code, s, p, address, m0);
            !m.lost && m.sig == Sequence(s, c, p, address, m0.sig, |s|)
  {
    TurnsRun(s, c, p, address, m0);
  }

  // ---------------------------------------------------------------------
  // Where the words of the whole program land
  // ---------------------------------------------------------------------

  /** The entries of the program, as the layout places them. */
  function EntriesOf(s: seq<Instr>, c: Config, p: Template, address: Label -> int): (es: seq<SU.Entry>)
    requires SL.AllPointed(s)
    ensures |es| == |s|
    ensures forall k | 0 <= k < |s| ::
              es[k] == SU.Entry(address(SL.TagAt(s, c, k)), s[k].offset, p.shape.test, p.vs(k))
  {
    seq(|s|, k requires 0 <= k < |s| => SU.Entry(address(SL.TagAt(s, c, k)), s[k].offset, p.shape.test, p.vs(k)))
  }

  lemma {:induction false} SequenceExplicit(s: seq<Instr>, c: Config, p: Template, address: Label -> int, g: SU.Sig,
                                            es: seq<SU.Entry>, n: nat)
    requires n <= |s| && Stores(p, |s|) && SL.AllPointed(s) && p.explicit && es == EntriesOf(s, c, p, address)
    requires SU.SaneEntries(es, p.shape.unit, p.shape.fix)
    ensures Sequence(s, c, p, address, g, n) == SU.Entries(g, p.shape.unit, p.shape.fix, es[..n])
  {
    if n > 0 {
      SequenceExplicit(s, c, p, address, g, es, n - 1);
      assert es[..n][..n - 1] == es[..n - 1];
    }
  }

  lemma {:induction false} SequenceImplicit(s: seq<Instr>, c: Config, p: Template, address: Label -> int, g: SU.Sig,
                                            es: seq<SU.Entry>, q: SI.Macro, n: nat)
    requires n <= |s| && Stores(p, |s|) && SL.AllPointed(s) && !p.explicit && es == EntriesOf(s, c, p, address)
    requires SI.Fitting(q) && SI.Uses(es, q) && p.shape == SU.Shape(q.unit, q.test, q.fix)
    ensures Sequence(s, c, p, address, g, n) == SI.Implicit(g, q, es[..n])
  {
    if n > 0 {
      SequenceImplicit(s, c, p, address, g, es, q, n - 1);
      assert es[..n][..n - 1] == es[..n - 1];
    }
  }

  /** The words at the slots the abstract run stores to, slot k at its region's address and offset. */
  function WordsAt(slots: seq<Slot>, p: Template, address: Label -> int): seq<(int, int)> {
    if slots == [] then []
    else
      var n := |slots| - 1;
      WordsAt(slots[..n], p, address)
      + SU.Words(SL.Address(slots[n], p.shape.unit, address), p.shape.unit, p.vs(n))
  }

  /** Each entry is at its slot and stores what its instruction stores. */
  ghost predicate AtSlots(es: seq<SU.Entry>, slots: seq<Slot>, p: Template, address: Label -> int)
    requires |es| == |slots|
  {
    forall k | 0 <= k < |es| :: AtSlot(es[k], slots[k], p, address, k)
  }

  predicate AtSlot(e: SU.Entry, slot: Slot, p: Template, address: Label -> int, k: nat) {
    e.vs == p.vs(k) && e.address + e.offset * p.shape.unit == SL.Address(slot, p.shape.unit, address)
  }

  lemma {:induction false} SlotWords(es: seq<SU.Entry>, slots: seq<Slot>, p: Template, address: Label -> int)
    requires |es| == |slots| && AtSlots(es, slots, p, address)
    ensures SU.Slots(es, p.shape.unit) == WordsAt(slots, p, address)
  {
    if es != [] {
      var n := |es| - 1;
      assert AtSlot(es[n], slots[n], p, address, n);
      forall k | 0 <= k < n ensures AtSlot(es[..n][k], slots[..n][k], p, address, k) {
        assert AtSlot(es[k], slots[k], p, address, k);
      }
      SlotWords(es[..n], slots[..n], p, address);
    }
  }

  /** A template fits: its macro steps by no more than the wrap test's unit and stores within a stride. */
  ghost predicate Explicit(p: Template, c: Config, n: nat) {
    && p.explicit && Stores(p, n) && p.shape.unit <= c.sigSize
    && (p.shape.test == 1 || p.shape.test == p.shape.unit) && forall i | 0 <= i < n :: |p.vs(i)| <= c.sigStride
  }

  lemma {:induction false} CodeIsEntries(s: seq<Instr>, c: Config, p: Template, address: Label -> int,
                                         code: seq<Item>, m0: Machine, es: seq<SU.Entry>)
    requires Ready(s, c) && Explicit(p, c, |s|) && IsCodeOf(code, s, c) && !m0.lost
    requires SL.AllPointed(s) && es == EntriesOf(s, c, p, address)
    ensures SU.SaneEntries(es, p.shape.unit, p.shape.fix) && InRange(code, s)
    ensures var m := Execute(code, s, p, address, m0);
            !m.lost && m.sig == SU.Entries(m0.sig, p.shape.unit, p.shape.fix, es)
  {
    CodeRun(s, c, p, address, code, m0);
    SequenceExplicit(s, c, p, address, m0.sig, es, |s|);
    assert es[..|s|] == es;
  }

  lemma {:induction false} EntriesFit(s: seq<Instr>, c: Config, p: Template, address: Label -> int, es: seq<SU.Entry>)
    requires Explicit(p, c, |s|) && SL.AllPointed(s) && es == EntriesOf(s, c, p, address)
    ensures SL.ProgramEntries(es, s, c, address)
  {
  }

  lemma {:induction false} EntriesAtSlots(s0: seq<Instr>, s: seq<Instr>, c: Config, p: Template,
                                          address: Label -> int, g: SU.Sig, es: seq<SU.Entry>, slots: seq<Slot>)
    requires Fresh(s0, c) && s == AfterVal(s0, c) && |s| > 0 && Explicit(p, c, |s|)
    requires SL.AllPointed(s) && es == EntriesOf(s, c, p, address) && InRange(Final(s, c).code, s)
    requires slots == Run(Final(s, c).code, s, c).stores && SU.SaneEntries(es, p.shape.unit, p.shape.fix)
    ensures SU.Landed(g, SU.Entries(g, p.shape.unit, p.shape.fix, es), SU.Slots(es, p.shape.unit))
    ensures |slots| == |es| && AtSlots(es, slots, p, address)
  {
    EntriesFit(s, c, p, address, es);
    SL.ProgramLands(s0, s, c, g, p.shape.unit, p.shape.fix, address, es);
    forall k | 0 <= k < |es| ensures AtSlot(es[k], slots[k], p, address, k) {
    }
  }

  /**
    With offsets as arguments: the program emitted for any fresh list, run from any
    state, stores every word in the slot the layout gives its instruction, each
    store encodable and through a base that is there.
   */
  lemma {:induction false} CodeLands(s0: seq<Instr>, s: seq<Instr>, c: Config, p: Template, address: Label -> int,
                                     code: seq<Item>, m0: Machine)
    requires Fresh(s0, c) && s == AfterVal(s0, c) && Explicit(p, c, |s|) && IsCodeOf(code, s, c) && !m0.lost
    ensures InRange(code, s)
    ensures var m := Execute(code, s, p, address, m0);
            !m.lost && SU.Landed(m0.sig, m.sig, WordsAt(Run(code, s, c).stores, p, address))
  {
    AllocationReady(s0, c);
    TurnsInRange(s, c, |s|);
    var es := EntriesOf(s, c, p, address);
    CodeIsEntries(s, c, p, address, code, m0, es);
    var slots := Run(code, s, c).stores;
    EntriesAtSlots(s0, s, c, p, address, m0.sig, es, slots);
    SlotWords(es, slots, p, address);
  }

  /** A template without an offset argument whose macro is q. */
  ghost predicate WithoutOffset(p: Template, q: SI.Macro, n: nat) {
    && !p.explicit && p.shape == SU.Shape(q.unit, q.test, q.fix) && SI.Fitting(q)
    && forall i | 0 <= i < n :: |p.vs(i)| == q.w
  }

  lemma {:induction false} CodeIsImplicit(s: seq<Instr>, c: Config, p: Template, q: SI.Macro, address: Label -> int,
                                          code: seq<Item>, m0: Machine, es: seq<SU.Entry>)
    requires Ready(s, c) && WithoutOffset(p, q, |s|) && IsCodeOf(code, s, c) && !m0.lost
    requires SL.AllPointed(s) && es == EntriesOf(s, c, p, address)
    ensures SI.Uses(es, q) && InRange(code, s) && Stores(p, |s|)
    ensures var m := Execute(code, s, p, address, m0); !m.lost && m.sig == SI.Implicit(m0.sig, q, es)
  {
    CodeRun(s, c, p, address, code, m0);
    SequenceImplicit(s, c, p, address, m0.sig, es, q, |s|);
    assert es[..|s|] == es;
  }

  lemma {:induction false} ImplicitLand(s0: seq<Instr>, s: seq<Instr>, c: Config, p: Template, q: SI.Macro,
                                        address: Label -> int, g: SU.Sig, es: seq<SU.Entry>)
    requires Fresh(s0, c) && s == AfterVal(s0, c) && WithoutOffset(p, q, |s|)
    requires q.size == c.sigSize && q.stride == c.sigStride
    requires SL.AllPointed(s) && es == EntriesOf(s, c, p, address) && SI.Uses(es, q)
    ensures SU.Landed(g, SI.Implicit(g, q, es), SI.ImplicitSlots(es, q)) && SI.InSlots(es, q)
  {
    SL.ProgramLandsImplicit(s0, s, c, g, q, address, es);
  }

  /**
    Without them: the words lie one macro after the other from each region's label
    on, and end inside the slots the layout gives.
   */
  lemma {:induction false} CodeLandsImplicit(s0: seq<Instr>, s: seq<Instr>, c: Config, p: Template, q: SI.Macro,
                                             address: Label -> int, code: seq<Item>, m0: Machine)
    requires Fresh(s0, c) && s == AfterVal(s0, c) && IsCodeOf(code, s, c) && !m0.lost
    requires WithoutOffset(p, q, |s|) && q.size == c.sigSize && q.stride == c.sigStride
    ensures InRange(code, s) && SL.AllPointed(s) && Stores(p, |s|)
    ensures var m, es := Execute(code, s, p, address, m0), EntriesOf(s, c, p, address);
            !m.lost && SU.Landed(m0.sig, m.sig, SI.ImplicitSlots(es, q)) && SI.InSlots(es, q)
  {
    AllocationReady(s0, c);
    TurnsInRange(s, c, |s|);
    var es := EntriesOf(s, c, p, address);
    CodeIsImplicit(s, c, p, q, address, code, m0, es);
    ImplicitLand(s0, s, c, p, q, address, m0.sig, es);
  }
}
