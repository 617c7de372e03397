/**
  `__write_test__` of riscv_ctg/generator.py: the instruction list becomes a
  program of pointer set-ups and test instructions, a list of signature regions
  and a data section.  The program is then run on an abstract register file to
  see through which pointers the instructions really store and load.
 */
module TestEmission {
  import opened Wrappers
  import opened RegisterAllocation
  import opened RegisterPasses

  /** signature_<reg>_<index>. */
  datatype Label = Label(reg: Reg, index: nat)

  /** RVTEST_SIGBASE, RVTEST_VALBASEUPD, and the template of instruction i. */
  datatype Item = SigBase(reg: Reg, tag: Label) | ValBase(reg: Reg, dataset: nat) | Inst(i: nat)

  /** A label followed by n units of fill. */
  datatype Region = Region(tag: Label, n: nat)

  /** A line of the data section: a dataset label, or the values of instruction i. */
  datatype DataLine = DataLabel(dataset: nat) | Section(i: nat)

  // ---------------------------------------------------------------------
  // Running the program
  // ---------------------------------------------------------------------

  datatype Content = SigPointer(tag: Label) | DataPointer(dataset: nat) | Junk

  /** Where an instruction stores its result or finds its values; Wild if its register is no such pointer. */
  datatype Slot = SigSlot(tag: Label, offset: nat) | DataSlot(dataset: nat, offset: nat) | Wild

  datatype Trace = Trace(regs: map<Reg, Content>, stores: seq<Slot>, loads: seq<Slot>)

  /** Every register an instruction's template may write. */
  function Writes(i: Instr): seq<Option<Reg>> {
    Operands(i) + [i.testreg, i.flagreg]
  }

  function Clobber(regs: map<Reg, Content>, ws: seq<Option<Reg>>): map<Reg, Content>
    decreases |ws|
  {
    if ws == [] then regs
    else if ws[0].None? then Clobber(regs, ws[1..])
    else Clobber(regs[ws[0].value := Junk], ws[1..])
  }

  function StoreThrough(regs: map<Reg, Content>, r: Option<Reg>, offset: nat): Slot {
    if r.Some? && r.value in regs && regs[r.value].SigPointer? then SigSlot(regs[r.value].tag, offset) else Wild
  }

  function LoadThrough(regs: map<Reg, Content>, r: Option<Reg>, offset: nat): Slot {
    if r.Some? && r.value in regs && regs[r.value].DataPointer? then DataSlot(regs[r.value].dataset, offset) else Wild
  }

  /** One item; an instruction uses its pointers after all of its own writes. */
  function Run1(item: Item, s: seq<Instr>, c: Config, t: Trace): Trace
    requires item.Inst? ==> item.i < |s|
  {
    match item
    case SigBase(r, tag) => t.(regs := t.regs[r := SigPointer(tag)])
    case ValBase(r, dataset) => t.(regs := t.regs[r := DataPointer(dataset)])
    case Inst(i) =>
      var regs := Clobber(t.regs, Writes(s[i]));
      Trace(regs,
            t.stores + [StoreThrough(regs, s[i].swreg, s[i].offset)],
            t.loads + if c.hasVal then [LoadThrough(regs, s[i].valReg, s[i].valOffset)] else [])
  }

  ghost predicate InRange(code: seq<Item>, s: seq<Instr>) {
    forall item | item in code && item.Inst? :: item.i < |s|
  }

  function Run(code: seq<Item>, s: seq<Instr>, c: Config): Trace
    requires InRange(code, s)
  {
    if code == [] then Trace(map[], [], []) else Run1(code[|code| - 1], s, c, Run(code[..|code| - 1], s, c))
  }

  // ---------------------------------------------------------------------
  // What the layout offers
  // ---------------------------------------------------------------------

  /** The first k slots of a region, a stride apart. */
  function RegionSlots(tag: Label, k: nat, stride: nat): seq<Slot> {
    if k == 0 then [] else RegionSlots(tag, k - 1, stride) + [SigSlot(tag, (k - 1) * stride)]
  }

  /** All slots of all regions: each region filled exactly, in the order the regions are laid out. */
  function AllSlots(counts: seq<(Label, nat)>, stride: nat): seq<Slot> {
    if counts == [] then []
    else
      var last := counts[|counts| - 1];
      AllSlots(counts[..|counts| - 1], stride) + RegionSlots(last.0, last.1, stride)
  }

  function RegionsOf(counts: seq<(Label, nat)>, stride: nat): seq<Region> {
    seq(|counts|, i requires 0 <= i < |counts| => Region(counts[i].0, counts[i].1 * stride))
  }

  /** The dataset label last laid down, and the number of sections since. */
  function Place(data: seq<DataLine>): (nat, nat) {
    if data == [] then (0, 0)
    else match data[|data| - 1]
      case DataLabel(k) => (k, 0)
      case Section(_) => (Place(data[..|data| - 1]).0, Place(data[..|data| - 1]).1 + 1)
  }

  // ---------------------------------------------------------------------
  // What the allocation guarantees
  // ---------------------------------------------------------------------

  /** No pointer is among the registers its own instruction writes, and slots run on or start over. */
  ghost predicate Ready(s: seq<Instr>, c: Config) {
    forall i | 0 <= i < |s| :: ReadyAt(s, c, i)
  }

  ghost predicate ReadyAt(s: seq<Instr>, c: Config, i: nat)
    requires i < |s|
  {
    && PointersSafe(s[i], c)
    && if i == 0 then s[0].offset == 0 && (c.hasVal ==> s[0].valOffset == 0) else SlotsRunOn(s[i - 1], s[i], c)
  }

  ghost predicate PointersSafe(i: Instr, c: Config) {
    && i.swreg.Some? && i.swreg !in Writes(i)
    && (c.hasVal ==> i.valReg.Some? && i.valReg !in Writes(i) && i.valReg != i.swreg)
  }

  ghost predicate SlotsRunOn(before: Instr, after: Instr, c: Config) {
    && RunsOn(before.swreg, before.offset, after.swreg, after.offset, c.sigStride)
    && (c.hasVal ==> RunsOn(before.valReg, before.valOffset, after.valReg, after.valOffset, c.valStride))
  }

  /** What the three passes make of one instruction. */
  ghost predicate Picked(i0: Instr, i1: Instr, i2: Instr, i3: Instr, c: Config) {
    && i1 == i0.(swreg := i1.swreg, offset := i1.offset) && i1.swreg.Some? && i1.swreg !in Operands(i0)
    && i2 == i1.(testreg := i2.testreg) && i2.testreg.Some? && i2.testreg !in [i1.rs1, i1.rs2, i1.rd, i1.swreg]
    && if c.hasVal then
         && i3 == i2.(valReg := i3.valReg, valOffset := i3.valOffset, flagreg := i3.flagreg)
         && i3.valReg.Some? && i3.valReg !in Operands(i2) + [i2.swreg, i2.testreg]
         && (i3.flagreg == i2.flagreg
             || (i3.flagreg != i3.valReg && i3.flagreg !in Operands(i2) + [i2.swreg, i2.testreg]))
       else i3 == i2
  }

  lemma {:induction false} PickedSafe(i0: Instr, i1: Instr, i2: Instr, i3: Instr, c: Config)
    requires i0.flagreg.None? && Picked(i0, i1, i2, i3, c)
    ensures PointersSafe(i3, c) && i3.swreg == i1.swreg && i3.offset == i1.offset
  {
  }

  lemma {:induction false} PickedAt(s: seq<Instr>, c: Config, i: nat)
    requires Fresh(s, c) && i < |s|
    ensures Picked(s[i], AfterSw(s, c)[i], AfterTest(s, c)[i], AfterVal(s, c)[i], c)
    ensures i == 0 ==> AfterSw(s, c)[0].offset == 0 && (c.hasVal ==> AfterVal(s, c)[0].valOffset == 0)
  {
    AfterSwFits(s, c);
    AfterTestFits(s, c);
    SwPick(s, c, i);
    TestPick(AfterSw(s, c), c, i);
    if c.hasVal { ValPick(AfterTest(s, c), c, i); }
  }

  lemma {:induction false} RunsOnAt(s: seq<Instr>, c: Config, i: nat)
    requires Fresh(s, c) && 0 < i < |s|
    ensures var t := AfterSw(s, c); RunsOn(t[i - 1].swreg, t[i - 1].offset, t[i].swreg, t[i].offset, c.sigStride)
    ensures var t := AfterVal(s, c);
            c.hasVal ==> RunsOn(t[i - 1].valReg, t[i - 1].valOffset, t[i].valReg, t[i].valOffset, c.valStride)
  {
    AfterTestFits(s, c);
    SwRunsOn(s, c, i);
    if c.hasVal { ValRunsOn(AfterTest(s, c), c, i); }
  }

  ghost predicate SwStep(t: seq<Instr>, c: Config, i: nat)
    requires i < |t|
  {
    if i == 0 then t[0].offset == 0
    else RunsOn(t[i - 1].swreg, t[i - 1].offset, t[i].swreg, t[i].offset, c.sigStride)
  }

  ghost predicate ValStep(t: seq<Instr>, c: Config, i: nat)
    requires i < |t|
  {
    c.hasVal ==>
      if i == 0 then t[0].valOffset == 0
      else RunsOn(t[i - 1].valReg, t[i - 1].valOffset, t[i].valReg, t[i].valOffset, c.valStride)
  }

  lemma {:induction false} ReadyFrom(s: seq<Instr>, s1: seq<Instr>, s2: seq<Instr>, s3: seq<Instr>, c: Config)
    requires |s| == |s1| == |s2| == |s3| && Fresh(s, c)
    requires forall i | 0 <= i < |s| :: Picked(s[i], s1[i], s2[i], s3[i], c)
    requires forall i | 0 <= i < |s| :: SwStep(s1, c, i) && ValStep(s3, c, i)
    ensures Ready(s3, c)
  {
    forall i | 0 <= i < |s| ensures ReadyAt(s3, c, i) {
      PickedSafe(s[i], s1[i], s2[i], s3[i], c);
      assert SwStep(s1, c, i) && ValStep(s3, c, i);
      if i > 0 { PickedSafe(s[i - 1], s1[i - 1], s2[i - 1], s3[i - 1], c); }
    }
  }

  /** After the three passes any fresh list is ready to be emitted. */
  lemma {:induction false} AllocationReady(s: seq<Instr>, c: Config)
    requires Fresh(s, c)
    ensures Ready(AfterVal(s, c), c)
  {
    var s1, s2, s3 := AfterSw(s, c), AfterTest(s, c), AfterVal(s, c);
    forall i | 0 <= i < |s|
      ensures Picked(s[i], s1[i], s2[i], s3[i], c)
      ensures SwStep(s1, c, i) && ValStep(s3, c, i)
    {
      PickedAt(s, c, i);
      if i > 0 { RunsOnAt(s, c, i); }
    }
    ReadyFrom(s, s1, s2, s3, c);
  }

  // ---------------------------------------------------------------------
  // Pointers survive
  // ---------------------------------------------------------------------

  lemma {:induction false} ClobberKeeps(regs: map<Reg, Content>, ws: seq<Option<Reg>>, r: Reg)
    requires r in regs && Some(r) !in ws
    ensures r in Clobber(regs, ws) && Clobber(regs, ws)[r] == regs[r]
    decreases |ws|
  {
    if ws != [] {
      assert ws[0] in ws && forall w | w in ws[1..] :: w in ws;
      ClobberKeeps(if ws[0].None? then regs else regs[ws[0].value := Junk], ws[1..], r);
    }
  }

  /** An instruction leaves junk in its operands, pair halves, scratch and flag register. */
  lemma {:induction false} ClobberJunks(regs: map<Reg, Content>, ws: seq<Option<Reg>>, r: Reg)
    requires Some(r) in ws || (r in regs && regs[r] == Junk)
    ensures r in Clobber(regs, ws) && Clobber(regs, ws)[r] == Junk
    decreases |ws|
  {
    if ws != [] {
      assert forall w | w in ws :: w == ws[0] || w in ws[1..];
      ClobberJunks(if ws[0].None? then regs else regs[ws[0].value := Junk], ws[1..], r);
    }
  }

  lemma {:induction false} InstJunks(s: seq<Instr>, c: Config, t: Trace, i: nat, r: Reg)
    requires i < |s|
    requires Some(r) in {s[i].rs1, s[i].rs2, s[i].rd, s[i].rs1Hi, s[i].rs2Hi, s[i].rdHi, s[i].testreg, s[i].flagreg}
    ensures var t1 := Run1(Inst(i), s, c, t); r in t1.regs && t1.regs[r] == Junk
  {
    ClobberJunks(t.regs, Writes(s[i]), r);
  }

  lemma {:induction false} RunSnoc(code: seq<Item>, item: Item, s: seq<Instr>, c: Config)
    requires InRange(code, s) && (item.Inst? ==> item.i < |s|)
    ensures InRange(code + [item], s) && Run(code + [item], s, c) == Run1(item, s, c, Run(code, s, c))
  {
  }

  /** The state of the emitter: what it has written, and the pointers it believes to be set up. */
  datatype Emitter = Emitter(code: seq<Item>, data: seq<DataLine>, closed: seq<(Label, nat)>,
                             sreg: Reg, count: nat, index: map<Reg, nat>, vreg: Option<Reg>, dsets: nat)

  function IndexOf(index: map<Reg, nat>, r: Reg): nat {
    if r in index then index[r] else 0
  }

  function Current(e: Emitter): Label {
    Label(e.sreg, IndexOf(e.index, e.sreg))
  }

  /** The first half of one turn: a new dataset when the slot starts over or the pointer changes, and the values. */
  function EmitValues(e: Emitter, s: seq<Instr>, i: nat): Emitter
    requires i < |s|
  {
    var switch := s[i].valOffset == 0 || s[i].valReg != e.vreg;
    var e1 := if switch && s[i].valReg.Some? then
                e.(vreg := s[i].valReg, dsets := e.dsets + 1, data := e.data + [DataLabel(e.dsets)],
                   code := e.code + [ValBase(s[i].valReg.value, e.dsets)])
              else e;
    e1.(data := e1.data + [Section(i)])
  }

  /** A new signature region when the slot starts over or the pointer changes, else one more slot in this one. */
  function Rebase(e: Emitter, s: seq<Instr>, i: nat): Emitter
    requires i < |s| && s[i].swreg.Some?
  {
    var r := s[i].swreg.value;
    if r != e.sreg || s[i].offset == 0 then
      var index := e.index[e.sreg := IndexOf(e.index, e.sreg) + 1];
      e.(closed := e.closed + [(Current(e), e.count)], count := 1, sreg := r, index := index,
         code := e.code + [SigBase(r, Label(r, IndexOf(index, r)))])
    else e.(count := e.count + 1)
  }

  /** The second half: the region, then the instruction. */
  function EmitSignature(e: Emitter, s: seq<Instr>, i: nat): Emitter
    requires i < |s| && s[i].swreg.Some?
  {
    var e1 := Rebase(e, s, i);
    e1.(code := e1.code + [Inst(i)])
  }

  /** What has been emitted for the first i instructions runs as laid out. */
  ghost predicate Good(e: Emitter, s: seq<Instr>, c: Config, i: nat)
    requires i <= |s|
  {
    && InRange(e.code, s)
    && var t := Run(e.code, s, c);
    && t.stores == AllSlots(e.closed, c.sigStride) + RegionSlots(Current(e), e.count, c.sigStride)
    && (i > 0 ==>
          && e.count > 0 && s[i - 1].swreg == Some(e.sreg) && s[i - 1].offset == (e.count - 1) * c.sigStride
          && e.sreg in t.regs && t.regs[e.sreg] == SigPointer(Current(e)))
    && (i == 0 ==> e.count == 0)
    && LabelsGood(e)
  }

  /** Every label closed so far was used once; the labels to come are new. */
  ghost predicate LabelsGood(e: Emitter) {
    && (forall j | 0 <= j < |e.closed| :: e.closed[j].0.index < IndexOf(e.index, e.closed[j].0.reg))
    && (forall j, k | 0 <= j < k < |e.closed| :: e.closed[j].0 != e.closed[k].0)
    && TagsOf(e.code) == TagsNamed(e.closed, Current(e))
  }

  /** The labels RVTEST_SIGBASE sets up, in order. */
  function TagsOf(code: seq<Item>): seq<Label> {
    if code == [] then []
    else TagsOf(code[..|code| - 1]) + if code[|code| - 1].SigBase? then [code[|code| - 1].tag] else []
  }

  /** The labels of the regions but the first, which is the empty one before any instruction. */
  function TagsNamed(closed: seq<(Label, nat)>, current: Label): seq<Label> {
    seq(|closed|, j requires 0 <= j < |closed| => if j + 1 < |closed| then closed[j + 1].0 else current)
  }

  /** The data half: every load goes where the values of its instruction were placed. */
  ghost predicate DataGood(e: Emitter, s: seq<Instr>, c: Config, i: nat)
    requires i <= |s|
  {
    && InRange(e.code, s)
    && var t := Run(e.code, s, c);
    && t.loads == PlacedSlots(e.data, c.valStride)
    && (i == 0 ==> e.data == [] && e.vreg.None?)
    && (i > 0 ==>
          && e.vreg.Some? && e.vreg == s[i - 1].valReg && e.data != [] && e.dsets > 0
          && Place(e.data).0 == e.dsets - 1 && Place(e.data).1 > 0
          && s[i - 1].valOffset == (Place(e.data).1 - 1) * c.valStride
          && e.vreg.value in t.regs && t.regs[e.vreg.value] == DataPointer(e.dsets - 1))
  }

  /** The slots at which the sections of the data part start, a section being one stride. */
  function PlacedSlots(data: seq<DataLine>, stride: nat): seq<Slot> {
    if data == [] then []
    else
      var before := data[..|data| - 1];
      match data[|data| - 1]
      case DataLabel(_) => PlacedSlots(before, stride)
      case Section(_) => PlacedSlots(before, stride) + [DataSlot(Place(before).0, Place(before).1 * stride)]
  }

  // ---------------------------------------------------------------------
  // Every turn of the loop keeps what has been emitted good
  // ---------------------------------------------------------------------

  /** Between the two halves of turn i: the signature pointer stands unless this turn replaces it. */
  ghost predicate Between(e: Emitter, s: seq<Instr>, c: Config, i: nat)
    requires i < |s| && s[i].swreg.Some?
  {
    && InRange(e.code, s) && LabelsGood(e)
    && var t := Run(e.code, s, c);
    && t.stores == AllSlots(e.closed, c.sigStride) + RegionSlots(Current(e), e.count, c.sigStride)
    && (s[i].offset == 0 || s[i].swreg.value != e.sreg
        || (s[i].offset == e.count * c.sigStride && e.sreg in t.regs && t.regs[e.sreg] == SigPointer(Current(e))))
  }

  /** Between the halves, the data side: the data pointer stands and the values of instruction i are in place. */
  ghost predicate BetweenData(e: Emitter, s: seq<Instr>, c: Config, i: nat)
    requires i < |s|
  {
    && InRange(e.code, s)
    && var t := Run(e.code, s, c);
    && e.vreg.Some? && e.vreg == s[i].valReg && e.data != [] && e.dsets > 0
    && Place(e.data).0 == e.dsets - 1 && Place(e.data).1 > 0
    && s[i].valOffset == (Place(e.data).1 - 1) * c.valStride
    && e.vreg.value in t.regs && t.regs[e.vreg.value] == DataPointer(e.dsets - 1)
    && PlacedSlots(e.data, c.valStride) == t.loads + [DataSlot(e.dsets - 1, s[i].valOffset)]
  }

  lemma {:induction false} Ahead(e: Emitter, s: seq<Instr>, c: Config, i: nat)
    requires i < |s| && Good(e, s, c, i) && ReadyAt(s, c, i)
    ensures Between(e, s, c, i) && (s[i].offset != 0 ==> s[i].swreg.value == e.sreg)
  {
  }

  lemma {:induction false} PlacedSnoc(data: seq<DataLine>, line: DataLine, stride: nat)
    ensures PlacedSlots(data + [line], stride)
         == PlacedSlots(data, stride) + if line.Section? then [DataSlot(Place(data).0, Place(data).1 * stride)] else []
    ensures Place(data + [line]) == if line.Section? then (Place(data).0, Place(data).1 + 1) else (line.dataset, 0)
  {
  }

  /** The switch of data pointers, which the signature pointer survives. */
  lemma {:induction false} SwitchData(e: Emitter, s: seq<Instr>, c: Config, i: nat, e1: Emitter)
    requires i < |s| && c.hasVal && ReadyAt(s, c, i) && Between(e, s, c, i)
    requires s[i].valReg.Some? && InRange(e.code, s)
    requires e1 == e.(vreg := s[i].valReg, dsets := e.dsets + 1, data := e.data + [DataLabel(e.dsets)],
                      code := e.code + [ValBase(s[i].valReg.value, e.dsets)])
    ensures Between(e1, s, c, i)
    ensures Run(e1.code, s, c).loads == Run(e.code, s, c).loads
    ensures Run(e1.code, s, c).regs == Run(e.code, s, c).regs[s[i].valReg.value := DataPointer(e.dsets)]
  {
    RunSnoc(e.code, ValBase(s[i].valReg.value, e.dsets), s, c);
    assert Current(e1) == Current(e);
  }

  lemma {:induction false} SectionKeeps(e: Emitter, s: seq<Instr>, c: Config, i: nat)
    requires i < |s| && s[i].swreg.Some? && Between(e, s, c, i)
    ensures Between(e.(data := e.data + [Section(i)]), s, c, i)
  {
  }

  lemma {:induction false} SwitchedData(e: Emitter, s: seq<Instr>, c: Config, i: nat, e1: Emitter)
    requires i < |s| && c.hasVal && ReadyAt(s, c, i) && Between(e, s, c, i) && DataGood(e, s, c, i)
    requires s[i].valOffset == 0
    requires e1 == e.(vreg := s[i].valReg, dsets := e.dsets + 1, data := e.data + [DataLabel(e.dsets)],
                      code := e.code + [ValBase(s[i].valReg.value, e.dsets)])
    ensures InRange(e1.code, s) && BetweenData(e1.(data := e1.data + [Section(i)]), s, c, i)
  {
    SwitchData(e, s, c, i, e1);
    PlacedSnoc(e.data, DataLabel(e.dsets), c.valStride);
    PlacedSnoc(e1.data, Section(i), c.valStride);
    assert 0 * c.valStride == 0;
  }

  lemma {:induction false} SameData(e: Emitter, s: seq<Instr>, c: Config, i: nat)
    requires i < |s| && c.hasVal && ReadyAt(s, c, i) && DataGood(e, s, c, i)
    requires s[i].valOffset != 0
    ensures s[i].valReg == e.vreg && BetweenData(e.(data := e.data + [Section(i)]), s, c, i)
  {
  }

  lemma {:induction false} ValuesKeep(e: Emitter, s: seq<Instr>, c: Config, i: nat)
    requires i < |s| && c.hasVal && ReadyAt(s, c, i) && Between(e, s, c, i) && DataGood(e, s, c, i)
    ensures Between(EmitValues(e, s, i), s, c, i) && BetweenData(EmitValues(e, s, i), s, c, i)
  {
    if s[i].valOffset == 0 {
      var e1 := e.(vreg := s[i].valReg, dsets := e.dsets + 1, data := e.data + [DataLabel(e.dsets)],
                   code := e.code + [ValBase(s[i].valReg.value, e.dsets)]);
      SwitchData(e, s, c, i, e1);
      SwitchedData(e, s, c, i, e1);
      SectionKeeps(e1, s, c, i);
    } else {
      SameData(e, s, c, i);
      SectionKeeps(e, s, c, i);
    }
  }

  lemma {:induction false} AllSlotsSnoc(counts: seq<(Label, nat)>, last: (Label, nat), stride: nat)
    ensures AllSlots(counts + [last], stride) == AllSlots(counts, stride) + RegionSlots(last.0, last.1, stride)
  {
  }

  lemma {:induction false} RebaseLabels(e: Emitter, s: seq<Instr>, i: nat)
    requires i < |s| && s[i].swreg.Some? && LabelsGood(e)
    ensures LabelsGood(Rebase(e, s, i))
  {
    var e1 := Rebase(e, s, i);
    assert forall j | 0 <= j < |e.closed| :: e1.closed[j] == e.closed[j];
    if e1.closed != e.closed {
      assert e1.closed[|e.closed|].0 == Current(e);
    }
  }

  /** Room for one more store; the signature pointer points at its region. */
  ghost predicate Rebased(e: Emitter, s: seq<Instr>, c: Config, i: nat)
    requires i < |s|
  {
    && InRange(e.code, s) && LabelsGood(e)
    && var t := Run(e.code, s, c);
    && e.count > 0 && s[i].swreg == Some(e.sreg) && s[i].offset == (e.count - 1) * c.sigStride
    && t.stores == AllSlots(e.closed, c.sigStride) + RegionSlots(Current(e), e.count - 1, c.sigStride)
    && e.sreg in t.regs && t.regs[e.sreg] == SigPointer(Current(e))
  }

  lemma {:induction false} RebaseNew(e: Emitter, s: seq<Instr>, c: Config, i: nat)
    requires i < |s| && s[i].swreg.Some? && s[i].offset == 0 && Between(e, s, c, i)
    ensures Rebased(Rebase(e, s, i), s, c, i)
    ensures var t := Run(e.code, s, c);
            Run(Rebase(e, s, i).code, s, c)
            == t.(regs := t.regs[s[i].swreg.value := SigPointer(Current(Rebase(e, s, i)))])
  {
    RebaseLabels(e, s, i);
    var e1, r := Rebase(e, s, i), s[i].swreg.value;
    assert Current(e1) == Label(r, IndexOf(e1.index, r));
    RunSnoc(e.code, SigBase(r, Current(e1)), s, c);
    AllSlotsSnoc(e.closed, (Current(e), e.count), c.sigStride);
    assert RegionSlots(Current(e1), 0, c.sigStride) == [];
  }

  lemma {:induction false} RebaseSame(e: Emitter, s: seq<Instr>, c: Config, i: nat)
    requires i < |s| && s[i].swreg == Some(e.sreg) && s[i].offset != 0 && Between(e, s, c, i)
    ensures Rebased(Rebase(e, s, i), s, c, i)
  {
  }

  lemma {:induction false} RebaseGood(e: Emitter, s: seq<Instr>, c: Config, i: nat)
    requires i < |s| && ReadyAt(s, c, i) && Between(e, s, c, i)
    requires s[i].offset != 0 ==> s[i].swreg.value == e.sreg
    ensures Rebased(Rebase(e, s, i), s, c, i)
  {
    if s[i].offset == 0 { RebaseNew(e, s, c, i); } else { RebaseSame(e, s, c, i); }
  }

  lemma {:induction false} DataStays(e: Emitter, e1: Emitter, s: seq<Instr>, c: Config, i: nat)
    requires i < |s| && c.hasVal && ReadyAt(s, c, i) && BetweenData(e, s, c, i) && InRange(e1.code, s)
    requires e1.vreg == e.vreg && e1.data == e.data && e1.dsets == e.dsets
    requires var t, t1 := Run(e.code, s, c), Run(e1.code, s, c);
             t1.loads == t.loads && t1.regs == t.regs[s[i].swreg.value := SigPointer(Current(e1))]
    ensures BetweenData(e1, s, c, i)
  {
  }

  lemma {:induction false} RebaseGoodData(e: Emitter, s: seq<Instr>, c: Config, i: nat)
    requires i < |s| && c.hasVal && ReadyAt(s, c, i) && Between(e, s, c, i) && BetweenData(e, s, c, i)
    requires s[i].offset != 0 ==> s[i].swreg.value == e.sreg
    ensures InRange(Rebase(e, s, i).code, s) && BetweenData(Rebase(e, s, i), s, c, i)
  {
    var e1 := Rebase(e, s, i);
    if s[i].offset == 0 {
      RebaseNew(e, s, c, i);
      DataStays(e, e1, s, c, i);
    } else {
      assert e1 == e.(count := e.count + 1);
    }
  }

  lemma {:induction false} InstKeepsSign(e: Emitter, s: seq<Instr>, c: Config, i: nat)
    requires i < |s| && ReadyAt(s, c, i) && Rebased(e, s, c, i)
    ensures Good(e.(code := e.code + [Inst(i)]), s, c, i + 1)
  {
    var e1 := e.(code := e.code + [Inst(i)]);
    RunSnoc(e.code, Inst(i), s, c);
    ClobberKeeps(Run(e.code, s, c).regs, Writes(s[i]), e.sreg);
    assert Current(e1) == Current(e);
  }

  lemma {:induction false} InstKeepsData(e: Emitter, s: seq<Instr>, c: Config, i: nat)
    requires i < |s| && ReadyAt(s, c, i) && c.hasVal && BetweenData(e, s, c, i)
    ensures DataGood(e.(code := e.code + [Inst(i)]), s, c, i + 1)
  {
    RunSnoc(e.code, Inst(i), s, c);
    ClobberKeeps(Run(e.code, s, c).regs, Writes(s[i]), e.vreg.value);
  }

  /** One turn of the loop. */
  function Turn(e: Emitter, s: seq<Instr>, c: Config, i: nat): Emitter
    requires i < |s| && s[i].swreg.Some?
  {
    EmitSignature(if c.hasVal then EmitValues(e, s, i) else e, s, i)
  }

  lemma {:induction false} TurnKeeps(e: Emitter, s: seq<Instr>, c: Config, i: nat)
    requires i < |s| && ReadyAt(s, c, i) && Good(e, s, c, i) && (c.hasVal ==> DataGood(e, s, c, i))
    ensures Good(Turn(e, s, c, i), s, c, i + 1) && (c.hasVal ==> DataGood(Turn(e, s, c, i), s, c, i + 1))
  {
    Ahead(e, s, c, i);
    var e1 := if c.hasVal then EmitValues(e, s, i) else e;
    if c.hasVal {
      ValuesKeep(e, s, c, i);
    }
    assert e1.sreg == e.sreg;
    RebaseGood(e1, s, c, i);
    if c.hasVal {
      RebaseGoodData(e1, s, c, i);
    }
    InstKeepsSign(Rebase(e1, s, i), s, c, i);
    if c.hasVal {
      InstKeepsData(Rebase(e1, s, i), s, c, i);
    }
  }

  // ---------------------------------------------------------------------
  // Every instruction once, in order
  // ---------------------------------------------------------------------

  function Insts(code: seq<Item>): seq<nat> {
    if code == [] then []
    else Insts(code[..|code| - 1]) + if code[|code| - 1].Inst? then [code[|code| - 1].i] else []
  }

  function Sections(data: seq<DataLine>): seq<nat> {
    if data == [] then []
    else Sections(data[..|data| - 1]) + if data[|data| - 1].Section? then [data[|data| - 1].i] else []
  }

  /** The dataset labels, in the order they are laid down. */
  function Datasets(data: seq<DataLine>): seq<nat> {
    if data == [] then []
    else Datasets(data[..|data| - 1]) + if data[|data| - 1].DataLabel? then [data[|data| - 1].dataset] else []
  }

  /** The datasets RVTEST_VALBASEUPD sets up, in order. */
  function BasesOf(code: seq<Item>): seq<nat> {
    if code == [] then []
    else BasesOf(code[..|code| - 1]) + if code[|code| - 1].ValBase? then [code[|code| - 1].dataset] else []
  }

  /** Each label once, and each set up once, in order. */
  ghost predicate DatasetsGood(data: seq<DataLine>, code: seq<Item>, n: nat) {
    Datasets(data) == UpTo(n) && BasesOf(code) == UpTo(n)
  }

  function UpTo(n: nat): seq<nat> {
    seq(n, i => i)
  }

  lemma {:induction false} InstsSnoc(code: seq<Item>, item: Item)
    ensures Insts(code + [item]) == Insts(code) + if item.Inst? then [item.i] else []
  {
    assert (code + [item])[..|code|] == code;
  }

  lemma {:induction false} ValuesInOrder(e: Emitter, s: seq<Instr>, i: nat)
    requires i < |s|
    ensures Insts(EmitValues(e, s, i).code) == Insts(e.code)
            && Sections(EmitValues(e, s, i).data) == Sections(e.data) + [i]
  {
  }

  lemma {:induction false} SignatureInOrder(e: Emitter, s: seq<Instr>, i: nat)
    requires i < |s| && s[i].swreg.Some?
    ensures Insts(EmitSignature(e, s, i).code) == Insts(e.code) + [i]
  {
    var e1 := Rebase(e, s, i);
    InstsSnoc(e.code, SigBase(e1.sreg, Current(e1)));
    InstsSnoc(e1.code, Inst(i));
  }

  lemma {:induction false} TurnInOrder(e: Emitter, s: seq<Instr>, c: Config, i: nat)
    requires i < |s| && s[i].swreg.Some? && Insts(e.code) == UpTo(i) && (c.hasVal ==> Sections(e.data) == UpTo(i))
    ensures Insts(Turn(e, s, c, i).code) == UpTo(i + 1) && (c.hasVal ==> Sections(Turn(e, s, c, i).data) == UpTo(i + 1))
  {
    assert UpTo(i + 1) == UpTo(i) + [i];
    ValuesInOrder(e, s, i);
    SignatureInOrder(if c.hasVal then EmitValues(e, s, i) else e, s, i);
  }

  lemma {:induction false} DatasetsMore(data: seq<DataLine>, code: seq<Item>, n: nat, line: DataLine, item: Item)
    requires DatasetsGood(data, code, n)
    ensures line.Section? ==> DatasetsGood(data + [line], code, n)
    ensures !item.ValBase? ==> DatasetsGood(data, code + [item], n)
    ensures line == DataLabel(n) && item.ValBase? && item.dataset == n
            ==> DatasetsGood(data + [line], code + [item], n + 1)
  {
    assert (data + [line])[..|data|] == data && (code + [item])[..|code|] == code;
    assert UpTo(n + 1) == UpTo(n) + [n];
  }

  lemma {:induction false} ValuesDatasets(e: Emitter, s: seq<Instr>, i: nat)
    requires i < |s| && DatasetsGood(e.data, e.code, e.dsets)
    ensures var e1 := EmitValues(e, s, i); DatasetsGood(e1.data, e1.code, e1.dsets)
  {
    var e1 := EmitValues(e, s, i);
    if s[i].valReg.Some? && (s[i].valOffset == 0 || s[i].valReg != e.vreg) {
      var head, base := DataLabel(e.dsets), ValBase(s[i].valReg.value, e.dsets);
      DatasetsMore(e.data, e.code, e.dsets, head, base);
      DatasetsMore(e.data + [head], e.code + [base], e.dsets + 1, Section(i), base);
    } else {
      DatasetsMore(e.data, e.code, e.dsets, Section(i), Inst(i));
    }
  }

  lemma {:induction false} TurnDatasets(e: Emitter, s: seq<Instr>, c: Config, i: nat)
    requires i < |s| && s[i].swreg.Some? && DatasetsGood(e.data, e.code, e.dsets)
    ensures var e1 := Turn(e, s, c, i); DatasetsGood(e1.data, e1.code, e1.dsets)
  {
    if c.hasVal { ValuesDatasets(e, s, i); }
    var e1 := if c.hasVal then EmitValues(e, s, i) else e;
    var e2 := Rebase(e1, s, i);
    DatasetsMore(e1.data, e1.code, e1.dsets, Section(i), SigBase(e2.sreg, Current(e2)));
    DatasetsMore(e2.data, e2.code, e2.dsets, Section(i), Inst(i));
  }

  // ---------------------------------------------------------------------
  // Pointers are set up where they have to be, and nowhere else
  // ---------------------------------------------------------------------

  /** How often the two pointers are set up between an instruction and the one before. */
  datatype Setup = Setup(sigs: nat, vals: nat)

  /** The set-ups since the last instruction. */
  function Pending(code: seq<Item>): Setup {
    if code == [] then Setup(0, 0)
    else
      var before := Pending(code[..|code| - 1]);
      match code[|code| - 1]
      case SigBase(_, _) => before.(sigs := before.sigs + 1)
      case ValBase(_, _) => before.(vals := before.vals + 1)
      case Inst(_) => Setup(0, 0)
  }

  /** The set-ups before each instruction. */
  function Setups(code: seq<Item>): seq<Setup> {
    if code == [] then []
    else
      var before := code[..|code| - 1];
      Setups(before) + if code[|code| - 1].Inst? then [Pending(before)] else []
  }

  lemma {:induction false} SetupsSnoc(code: seq<Item>, item: Item)
    ensures Setups(code + [item]) == Setups(code) + if item.Inst? then [Pending(code)] else []
    ensures Pending(code + [item]) == match item
                                      case SigBase(_, _) => Pending(code).(sigs := Pending(code).sigs + 1)
                                      case ValBase(_, _) => Pending(code).(vals := Pending(code).vals + 1)
                                      case Inst(_) => Setup(0, 0)
  {
    assert (code + [item])[..|code|] == code;
  }

  /** One RVTEST_SIGBASE where the slot is at 0 or the pointer is another, and one RVTEST_VALBASEUPD likewise. */
  function Due(s: seq<Instr>, c: Config, i: nat): Setup
    requires i < |s|
  {
    Setup(if s[i].offset == 0 || (i > 0 && s[i].swreg != s[i - 1].swreg) then 1 else 0,
          if c.hasVal && (s[i].valOffset == 0 || (i > 0 && s[i].valReg != s[i - 1].valReg)) then 1 else 0)
  }

  function SetupsDue(s: seq<Instr>, c: Config, n: nat): seq<Setup>
    requires n <= |s|
  {
    seq(n, i requires 0 <= i < n => Due(s, c, i))
  }

  /** All set-ups so far are those due, and the emitter's pointers are those of the last instruction. */
  ghost predicate SetUp(e: Emitter, s: seq<Instr>, c: Config, i: nat)
    requires i <= |s|
  {
    && Setups(e.code) == SetupsDue(s, c, i) && Pending(e.code) == Setup(0, 0)
    && (i > 0 ==> s[i - 1].swreg == Some(e.sreg) && (c.hasVal ==> s[i - 1].valReg == e.vreg))
    && (i == 0 && |s| > 0 ==> s[0].swreg == Some(e.sreg) && e.vreg.None?)
  }

  lemma {:induction false} ValuesSetUp(e: Emitter, s: seq<Instr>, c: Config, i: nat)
    requires i < |s| && SetUp(e, s, c, i) && c.hasVal && s[i].valReg.Some? && (i == 0 ==> s[0].valOffset == 0)
    ensures var e1 := EmitValues(e, s, i);
            && Setups(e1.code) == SetupsDue(s, c, i) && Pending(e1.code) == Setup(0, Due(s, c, i).vals)
            && e1.vreg == s[i].valReg && e1.sreg == e.sreg
  {
    SetupsSnoc(e.code, ValBase(s[i].valReg.value, e.dsets));
  }

  /** Before the signature half of turn i. */
  ghost predicate ValuesDone(e: Emitter, s: seq<Instr>, c: Config, i: nat)
    requires i < |s|
  {
    && Setups(e.code) == SetupsDue(s, c, i) && Pending(e.code) == Setup(0, Due(s, c, i).vals)
    && (c.hasVal ==> e.vreg == s[i].valReg) && s[if i == 0 then 0 else i - 1].swreg == Some(e.sreg)
  }

  lemma {:induction false} RebaseSetUp(e: Emitter, s: seq<Instr>, c: Config, i: nat)
    requires i < |s| && s[i].swreg.Some? && ValuesDone(e, s, c, i)
    ensures var e1 := Rebase(e, s, i);
            && Setups(e1.code) == SetupsDue(s, c, i) && Pending(e1.code) == Due(s, c, i)
            && Some(e1.sreg) == s[i].swreg && e1.vreg == e.vreg
  {
    var e1 := Rebase(e, s, i);
    SetupsSnoc(e.code, SigBase(e1.sreg, Current(e1)));
  }

  lemma {:induction false} SignatureSetUp(e: Emitter, s: seq<Instr>, c: Config, i: nat)
    requires i < |s| && s[i].swreg.Some? && ValuesDone(e, s, c, i)
    ensures SetUp(EmitSignature(e, s, i), s, c, i + 1)
  {
    RebaseSetUp(e, s, c, i);
    SetupsSnoc(Rebase(e, s, i).code, Inst(i));
    assert SetupsDue(s, c, i + 1) == SetupsDue(s, c, i) + [Due(s, c, i)];
  }

  lemma {:induction false} TurnSetUp(e: Emitter, s: seq<Instr>, c: Config, i: nat)
    requires i < |s| && ReadyAt(s, c, i) && SetUp(e, s, c, i)
    ensures SetUp(Turn(e, s, c, i), s, c, i + 1)
  {
    if c.hasVal { ValuesSetUp(e, s, c, i); }
    SignatureSetUp(if c.hasVal then EmitValues(e, s, i) else e, s, c, i);
  }

  // ---------------------------------------------------------------------
  // Labels are numbered through for each register
  // ---------------------------------------------------------------------

  /** How many of the regions have that register. */
  function UsesOf(counts: seq<(Label, nat)>, r: Reg): nat {
    if counts == [] then 0
    else UsesOf(counts[..|counts| - 1], r) + if counts[|counts| - 1].0.reg == r then 1 else 0
  }

  /** A label's number is that of the regions of its register before it. */
  ghost predicate NumberedThrough(counts: seq<(Label, nat)>) {
    forall j | 0 <= j < |counts| :: counts[j].0.index == UsesOf(counts[..j], counts[j].0.reg)
  }

  ghost predicate IndexGood(e: Emitter) {
    NumberedThrough(e.closed) && forall r :: IndexOf(e.index, r) == UsesOf(e.closed, r)
  }

  lemma {:induction false} NumberedSnoc(counts: seq<(Label, nat)>, last: (Label, nat))
    requires NumberedThrough(counts) && last.0.index == UsesOf(counts, last.0.reg)
    ensures NumberedThrough(counts + [last])
    ensures forall r :: UsesOf(counts + [last], r) == UsesOf(counts, r) + if last.0.reg == r then 1 else 0
  {
    var more := counts + [last];
    assert more[..|counts|] == counts;
    forall j | 0 <= j < |more| ensures more[j].0.index == UsesOf(more[..j], more[j].0.reg) {
      assert more[..j] == counts[..j];
    }
  }

  lemma {:induction false} NextNumber(e: Emitter, e1: Emitter)
    requires IndexGood(e) && e1.closed == e.closed + [(Current(e), e.count)]
    requires forall r :: IndexOf(e1.index, r) == IndexOf(e.index, r) + if r == e.sreg then 1 else 0
    ensures IndexGood(e1)
  {
    NumberedSnoc(e.closed, (Current(e), e.count));
  }

  lemma {:induction false} RebaseNumbers(e: Emitter, s: seq<Instr>, i: nat)
    requires i < |s| && s[i].swreg.Some? && IndexGood(e)
    ensures IndexGood(Rebase(e, s, i))
  {
    if s[i].swreg.value != e.sreg || s[i].offset == 0 {
      NextNumber(e, Rebase(e, s, i));
    }
  }

  lemma {:induction false} TurnNumbers(e: Emitter, s: seq<Instr>, c: Config, i: nat)
    requires i < |s| && s[i].swreg.Some? && IndexGood(e)
    ensures IndexGood(Turn(e, s, c, i)) && (e.data == [] && !c.hasVal ==> Turn(e, s, c, i).data == [])
  {
    RebaseNumbers(if c.hasVal then EmitValues(e, s, i) else e, s, i);
  }

  // ---------------------------------------------------------------------
  // Slots tile their regions
  // ---------------------------------------------------------------------

  ghost predicate Distinct(xs: seq<Slot>) {
    forall i, j | 0 <= i < j < |xs| :: xs[i] != xs[j]
  }

  ghost predicate DistinctTags(counts: seq<(Label, nat)>) {
    forall j, k | 0 <= j < k < |counts| :: counts[j].0 != counts[k].0
  }

  lemma {:induction false} RegionSlotsAt(tag: Label, k: nat, stride: nat)
    ensures |RegionSlots(tag, k, stride)| == k
    ensures forall j | 0 <= j < k :: RegionSlots(tag, k, stride)[j] == SigSlot(tag, j * stride)
  {
    if k > 0 { RegionSlotsAt(tag, k - 1, stride); }
  }

  lemma {:induction false} Farther(i: nat, j: nat, stride: nat)
    requires i < j && stride > 0
    ensures i * stride < j * stride
  {
  }

  lemma {:induction false} RegionSlotsDistinct(tag: Label, k: nat, stride: nat)
    requires stride > 0
    ensures Distinct(RegionSlots(tag, k, stride))
  {
    RegionSlotsAt(tag, k, stride);
    forall i, j | 0 <= i < j < k ensures RegionSlots(tag, k, stride)[i] != RegionSlots(tag, k, stride)[j] {
      Farther(i, j, stride);
    }
  }

  /** A slot of some region: a whole number of strides into it. */
  ghost predicate Within(counts: seq<(Label, nat)>, stride: nat, j: nat, k: nat, slot: Slot) {
    j < |counts| && k < counts[j].1 && slot == SigSlot(counts[j].0, k * stride)
  }

  lemma {:induction false} AllSlotsWithin(counts: seq<(Label, nat)>, stride: nat, slot: Slot)
    ensures slot in AllSlots(counts, stride) <==> exists j: nat, k: nat :: Within(counts, stride, j, k, slot)
  {
    if counts != [] {
      var n := |counts| - 1;
      AllSlotsWithin(counts[..n], stride, slot);
      RegionSlotsAt(counts[n].0, counts[n].1, stride);
      if j: nat, k: nat :| Within(counts[..n], stride, j, k, slot) {
        assert Within(counts, stride, j, k, slot);
      }
      if slot in RegionSlots(counts[n].0, counts[n].1, stride) {
        var k :| 0 <= k < counts[n].1 && RegionSlots(counts[n].0, counts[n].1, stride)[k] == slot;
        assert Within(counts, stride, n, k, slot);
      }
      if j: nat, k: nat :| Within(counts, stride, j, k, slot) {
        if j < n {
          assert Within(counts[..n], stride, j, k, slot);
        } else {
          assert RegionSlots(counts[n].0, counts[n].1, stride)[k] == slot;
        }
      }
    }
  }

  lemma {:induction false} DistinctJoin(a: seq<Slot>, b: seq<Slot>)
    requires Distinct(a) && Distinct(b) && forall x | x in a :: x !in b
    ensures Distinct(a + b)
  {
    var t := a + b;
    forall i, j | 0 <= i < j < |t| ensures t[i] != t[j] {
      if i < |a| <= j { assert t[i] in a && t[j] in b; }
    }
  }

  /** The slots of all regions are pairwise disjoint, and are just the multiples of the stride inside each region. */
  lemma {:induction false} SlotsTile(counts: seq<(Label, nat)>, stride: nat)
    requires stride > 0 && DistinctTags(counts)
    ensures Distinct(AllSlots(counts, stride))
    ensures forall slot ::
              slot in AllSlots(counts, stride) <==> exists j: nat, k: nat :: Within(counts, stride, j, k, slot)
  {
    forall slot
      ensures slot in AllSlots(counts, stride) <==> exists j: nat, k: nat :: Within(counts, stride, j, k, slot)
    {
      AllSlotsWithin(counts, stride, slot);
    }
    if counts != [] {
      var n := |counts| - 1;
      var last := RegionSlots(counts[n].0, counts[n].1, stride);
      SlotsTile(counts[..n], stride);
      RegionSlotsDistinct(counts[n].0, counts[n].1, stride);
      RegionSlotsAt(counts[n].0, counts[n].1, stride);
      forall slot | slot in AllSlots(counts[..n], stride) ensures slot !in last {
        var j: nat, k: nat :| Within(counts[..n], stride, j, k, slot);
        assert counts[j].0 != counts[n].0;
      }
      DistinctJoin(AllSlots(counts[..n], stride), last);
    }
  }

  // ---------------------------------------------------------------------
  // The emitter
  // ---------------------------------------------------------------------

  /** What a program, its signature regions and its data section must be to each other. */
  ghost predicate Coherent(code: seq<Item>, sign: seq<Region>, data: seq<DataLine>, counts: seq<(Label, nat)>,
                           s: seq<Instr>, c: Config) {
    && InRange(code, s) && Insts(code) == UpTo(|s|)
    && Run(code, s, c).stores == AllSlots(counts, c.sigStride)
    && sign == RegionsOf(counts, c.sigStride) && DistinctTags(counts) && NumberedThrough(counts)
    && counts != [] && TagsOf(code) == NextLabels(counts) && Setups(code) == SetupsDue(s, c, |s|)
    && (exists n :: DatasetsGood(data, code, n))
    && if c.hasVal then Sections(data) == UpTo(|s|) && Run(code, s, c).loads == PlacedSlots(data, c.valStride)
       else data == []
  }

  /** The labels of all regions but the first, which is empty and comes before any instruction. */
  function NextLabels(counts: seq<(Label, nat)>): seq<Label>
    requires counts != []
  {
    seq(|counts| - 1, j requires 0 <= j < |counts| - 1 => counts[j + 1].0)
  }

  /** Such regions exist. */
  ghost predicate WellLaidOut(code: seq<Item>, sign: seq<Region>, data: seq<DataLine>, s: seq<Instr>, c: Config) {
    exists counts :: Coherent(code, sign, data, counts, s, c)
  }

  lemma {:induction false} Finish(e: Emitter, s: seq<Instr>, c: Config, counts: seq<(Label, nat)>)
    requires Good(e, s, c, |s|) && IndexGood(e)
    requires if c.hasVal then DataGood(e, s, c, |s|) && Sections(e.data) == UpTo(|s|) else e.data == []
    requires DatasetsGood(e.data, e.code, e.dsets) && Insts(e.code) == UpTo(|s|) && SetUp(e, s, c, |s|)
             && counts == e.closed + [(Current(e), e.count)]
    ensures Coherent(e.code, RegionsOf(counts, c.sigStride), e.data, counts, s, c)
  {
    NumberedSnoc(e.closed, (Current(e), e.count));
  }

  lemma {:induction false} RegionsSnoc(counts: seq<(Label, nat)>, last: (Label, nat), stride: nat)
    ensures RegionsOf(counts + [last], stride) == RegionsOf(counts, stride) + [Region(last.0, last.1 * stride)]
  {
  }

  lemma {:induction false} StartGood(s: seq<Instr>, c: Config, e: Emitter)
    requires |s| > 0 && e.code == [] && e.data == [] && e.closed == [] && e.count == 0 && e.vreg.None?
             && e.index == map[] && s[0].swreg == Some(e.sreg)
    ensures SetUp(e, s, c, 0) && IndexGood(e)
    ensures Good(e, s, c, 0) && (c.hasVal ==> DataGood(e, s, c, 0))
  {
  }

  /** What holds after i turns. */
  ghost predicate Emitted(e: Emitter, s: seq<Instr>, c: Config, i: nat)
    requires i <= |s|
  {
    && Good(e, s, c, i) && Insts(e.code) == UpTo(i) && DatasetsGood(e.data, e.code, e.dsets) && SetUp(e, s, c, i)
    && IndexGood(e) && if c.hasVal then DataGood(e, s, c, i) && Sections(e.data) == UpTo(i) else e.data == []
  }

  lemma {:induction false} TurnEmitted(e: Emitter, s: seq<Instr>, c: Config, i: nat)
    requires i < |s| && ReadyAt(s, c, i) && Emitted(e, s, c, i)
    ensures Emitted(Turn(e, s, c, i), s, c, i + 1)
  {
    TurnKeeps(e, s, c, i);
    TurnInOrder(e, s, c, i);
    TurnDatasets(e, s, c, i);
    TurnSetUp(e, s, c, i);
    TurnNumbers(e, s, c, i);
  }

  function Opening(s: seq<Instr>): Emitter
    requires |s| > 0 && s[0].swreg.Some?
  {
    Emitter([], [], [], s[0].swreg.value, 0, map[], None, 0)
  }

  /** The emitter after i turns. */
  function Turns(s: seq<Instr>, c: Config, i: nat): Emitter
    requires 0 < |s| && i <= |s| && forall j | 0 <= j < |s| :: s[j].swreg.Some?
  {
    if i == 0 then Opening(s) else Turn(Turns(s, c, i - 1), s, c, i - 1)
  }

  lemma {:induction false} ReadyPointed(s: seq<Instr>, c: Config)
    requires Ready(s, c)
    ensures forall j | 0 <= j < |s| :: s[j].swreg.Some?
  {
    forall j | 0 <= j < |s| ensures s[j].swreg.Some? {
      assert ReadyAt(s, c, j);
    }
  }

  lemma {:induction false} TurnsEmitted(s: seq<Instr>, c: Config, i: nat)
    requires |s| > 0 && i <= |s| && Ready(s, c)
    ensures forall j | 0 <= j < |s| :: s[j].swreg.Some?
    ensures Emitted(Turns(s, c, i), s, c, i)
  {
    ReadyPointed(s, c);
    if i == 0 {
      StartGood(s, c, Opening(s));
    } else {
      var h := i - 1;
      TurnsEmitted(s, c, h);
      assert ReadyAt(s, c, h);
      TurnEmitted(Turns(s, c, h), s, c, h);
    }
  }

  /** The first half of a turn, on the emitter's own variables. */
  method WriteValues(instr: Instr, i: nat, code: seq<Item>, data: seq<DataLine>, vreg: Option<Reg>, dsets: nat,
                     ghost e: Emitter, ghost s: seq<Instr>)
    returns (code': seq<Item>, data': seq<DataLine>, vreg': Option<Reg>, dsets': nat)
    requires i < |s| && instr == s[i] && instr.valReg.Some?
    requires e.code == code && e.data == data && e.vreg == vreg && e.dsets == dsets
    ensures EmitValues(e, s, i) == e.(code := code', data := data', vreg := vreg', dsets := dsets')
  {
    code', data', vreg', dsets' := code, data, vreg, dsets;
    if instr.valOffset == 0 || instr.valReg != vreg {
      data' := data' + [DataLabel(dsets)];
      vreg' := instr.valReg;
      code' := code' + [ValBase(vreg'.value, dsets)];
      dsets' := dsets + 1;
    }
    data' := data' + [Section(i)];
  }

  /** The second half: n is the size so far of the region in progress. */
  method WriteSignature(instr: Instr, i: nat, code: seq<Item>, sign: seq<Region>, n: nat, regs: map<Reg, nat>,
                        sreg: Reg, stride: nat, ghost e: Emitter, ghost s: seq<Instr>)
    returns (code': seq<Item>, sign': seq<Region>, n': nat, regs': map<Reg, nat>, sreg': Reg)
    requires i < |s| && instr == s[i] && instr.swreg.Some?
    requires e.code == code && e.index == regs && e.sreg == sreg && sign == RegionsOf(e.closed, stride)
             && n == e.count * stride
    ensures var e' := EmitSignature(e, s, i);
            && e' == e.(code := code', index := regs', sreg := sreg', closed := e'.closed, count := e'.count)
            && sign' == RegionsOf(e'.closed, stride) && n' == e'.count * stride
  {
    code', sign', regs', sreg' := code, sign, regs, sreg;
    if instr.swreg != Some(sreg) || instr.offset == 0 {
      RegionsSnoc(e.closed, (Current(e), e.count), stride);
      sign' := sign' + [Region(Label(sreg, IndexOf(regs, sreg)), n)];
      n' := stride;
      regs' := regs'[sreg := IndexOf(regs, sreg) + 1];
      sreg' := instr.swreg.value;
      code' := code' + [SigBase(sreg', Label(sreg', IndexOf(regs', sreg')))];
    } else {
      n' := n + stride;
    }
    code' := code' + [Inst(i)];
  }

  function Final(s: seq<Instr>, c: Config): Emitter
    requires |s| > 0 && forall j | 0 <= j < |s| :: s[j].swreg.Some?
  {
    Turns(s, c, |s|)
  }

  /** What the loop's variables say of the emitter. */
  ghost predicate Shows(e: Emitter, c: Config, code: seq<Item>, sign: seq<Region>, data: seq<DataLine>, tag: Label,
                        size: nat) {
    && code == e.code && data == e.data && sign == RegionsOf(e.closed, c.sigStride)
    && tag == Current(e) && size == e.count * c.sigStride
  }

  /** The loop of `__write_test__`; size is the size of the region in progress. */
  method WriteAll(s: seq<Instr>, c: Config)
    returns (code: seq<Item>, sign: seq<Region>, data: seq<DataLine>, sreg: Reg, index: nat, size: nat)
    requires |s| > 0 && forall j | 0 <= j < |s| :: s[j].swreg.Some? && (c.hasVal ==> s[j].valReg.Some?)
    ensures Shows(Final(s, c), c, code, sign, data, Label(sreg, index), size)
  {
    var regs: map<Reg, nat> := map[];
    sreg := s[0].swreg.value;
    var vreg: Option<Reg> := None;
    var dsets := 0;
    size := 0;
    code, sign, data := [], [], [];
    for i := 0 to |s|
      invariant var e := Turns(s, c, i);
                && e == Emitter(code, data, e.closed, sreg, e.count, regs, vreg, dsets)
                && sign == RegionsOf(e.closed, c.sigStride) && size == e.count * c.sigStride
    {
      ghost var e := Turns(s, c, i);
      if c.hasVal {
        code, data, vreg, dsets := WriteValues(s[i], i, code, data, vreg, dsets, e, s);
        e := EmitValues(e, s, i);
      }
      code, sign, size, regs, sreg := WriteSignature(s[i], i, code, sign, size, regs, sreg, c.sigStride, e, s);
      assert Turns(s, c, i + 1) == EmitSignature(e, s, i);
    }
    index := IndexOf(regs, sreg);
  }

  /** The program of a list, as the loop's turns emit it. */
  ghost predicate IsCodeOf(code: seq<Item>, s: seq<Instr>, c: Config) {
    && |s| > 0 && (forall j | 0 <= j < |s| :: s[j].swreg.Some?)
    && code == Final(s, c).code
  }

  /** `__write_test__`: every instruction finds its pointers where the regions and the data section put them. */
  method WriteTest(s: seq<Instr>, c: Config) returns (code: seq<Item>, sign: seq<Region>, data: seq<DataLine>)
    requires |s| > 0 && Ready(s, c)
    ensures WellLaidOut(code, sign, data, s, c) && IsCodeOf(code, s, c)
  {
    TurnsEmitted(s, c, |s|);
    forall j | 0 <= j < |s| ensures c.hasVal ==> s[j].valReg.Some? {
      assert ReadyAt(s, c, j);
    }
    var sreg, index, size;
    code, sign, data, sreg, index, size := WriteAll(s, c);
    ghost var e := Turns(s, c, |s|);
    ghost var counts := e.closed + [(Current(e), e.count)];
    RegionsSnoc(e.closed, (Current(e), e.count), c.sigStride);
    sign := sign + [Region(Label(sreg, index), size)];
    assert counts[..|e.closed|] == e.closed;
    Finish(e, s, c, counts);
  }

  /** swreg, testreg, valreg and __write_test__ on a list as gen_inst leaves it. */
  method Generate(a: array<Instr>, c: Config) returns (code: seq<Item>, sign: seq<Region>, data: seq<DataLine>)
    requires a.Length > 0 && Fresh(a[..], c)
    modifies a
    ensures a[..] == AfterVal(old(a[..]), c)
    ensures WellLaidOut(code, sign, data, a[..], c) && IsCodeOf(code, a[..], c)
    ensures c.sigStride > 0 ==> Distinct(Run(code, a[..], c).stores)
  {
    ghost var s := a[..];
    AllocateAll(a, c);
    AllocationReady(s, c);
    code, sign, data := WriteTest(a[..], c);
    if c.sigStride > 0 {
      ghost var counts :| Coherent(code, sign, data, counts, a[..], c);
      SlotsTile(counts, c.sigStride);
    }
  }
}
