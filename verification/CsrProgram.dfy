/**
  The second half of riscv_ctg/csr_comb.py: clauses become masks and values,
  the masks and values of one solution are merged per register, and the merged
  fields become an ordered list of CSR writes that is undone in reverse.

  A non-negative Python integer is the set of the positions of its one bits, so
  `&` is intersection, `|` is union and clearing a mask is set difference.  A CSR
  is plain storage.  The write macro saves the CSR in its restore register and
  stores `(csr & ~mask) | val`; the restore macro writes the saved word back.
 */
module CsrProgram {
  import opened Wrappers
  import opened CsrFormula
  import opened CsrParser

  type Word = set<nat>

  // ---------------------------------------------------------------------
  // Clauses with a shift
  // ---------------------------------------------------------------------

  function ShiftLeft(x: Word, n: nat): Word {
    set b | b in x :: b + n
  }

  function ShiftRight(x: Word, n: nat): Word {
    set b | b in x && b >= n :: b - n
  }

  lemma {:induction false} ShiftLeftHas(x: Word, n: nat, b: nat)
    ensures b + n in ShiftLeft(x, n) <==> b in x
    ensures b in ShiftLeft(x, n) ==> b >= n
  {
  }

  lemma {:induction false} ShiftRightHas(x: Word, n: nat, b: nat)
    ensures b in ShiftRight(x, n) <==> b + n in x
  {
    if b + n in x {
      assert (b + n) - n in ShiftRight(x, n);
    }
  }

  lemma {:induction false} ShiftLeftInjective(x: Word, y: Word, n: nat)
    requires ShiftLeft(x, n) == ShiftLeft(y, n)
    ensures x == y
  {
    forall b: nat ensures b in x <==> b in y {
      ShiftLeftHas(x, n, b);
      ShiftLeftHas(y, n, b);
    }
  }

  lemma {:induction false} ShiftLeftMask(x: Word, mask: Word, n: nat)
    ensures x * ShiftLeft(mask, n) == ShiftLeft(ShiftRight(x, n) * mask, n)
  {
    forall c: nat ensures c in x * ShiftLeft(mask, n) <==> c in ShiftLeft(ShiftRight(x, n) * mask, n) {
      if c >= n {
        ShiftRightHas(x, n, c - n);
        ShiftLeftHas(mask, n, c - n);
        ShiftLeftHas(ShiftRight(x, n) * mask, n, c - n);
      }
    }
  }

  /** `(csr >> n) & mask == val` is the clause with mask and val moved up. */
  lemma {:induction false} RightShiftClause(x: Word, n: nat, mask: Word, val: Word)
    ensures ShiftRight(x, n) * mask == val <==> x * ShiftLeft(mask, n) == ShiftLeft(val, n)
  {
    ShiftLeftMask(x, mask, n);
    if x * ShiftLeft(mask, n) == ShiftLeft(val, n) {
      ShiftLeftInjective(ShiftRight(x, n) * mask, val, n);
    }
  }

  /** `(csr << n) & mask == val` is the clause with mask and val moved down, exactly when val has n low zeroes. */
  lemma {:induction false} LeftShiftClause(x: Word, n: nat, mask: Word, val: Word)
    ensures ShiftLeft(x, n) * mask == val
       <==> (forall b | b in val :: b >= n) && x * ShiftRight(mask, n) == ShiftRight(val, n)
  {
    forall b: nat
      ensures b + n in ShiftLeft(x, n) * mask <==> b in x * ShiftRight(mask, n)
      ensures b + n in val <==> b in ShiftRight(val, n)
    {
      ShiftLeftHas(x, n, b);
      ShiftRightHas(mask, n, b);
      ShiftRightHas(val, n, b);
    }
    if ShiftLeft(x, n) * mask == val {
      assert forall b: nat :: b in x * ShiftRight(mask, n) <==> b in ShiftRight(val, n);
      forall b | b in val ensures b >= n { assert b in ShiftLeft(x, n); }
    }
    if (forall b | b in val :: b >= n) && x * ShiftRight(mask, n) == ShiftRight(val, n) {
      forall c: nat ensures c in ShiftLeft(x, n) * mask <==> c in val {
        if c >= n {
          assert (c - n) + n in ShiftLeft(x, n) * mask <==> c - n in x * ShiftRight(mask, n);
          assert (c - n) + n in val <==> c - n in ShiftRight(val, n);
        }
      }
    }
  }

  datatype Modifier = Plain | Old | Write

  datatype Shift = NoShift | Right(n: nat) | Left(n: nat)

  /** A clause once matched and evaluated: `(csr >> n) & mask == val`, perhaps with a modifier on csr. */
  datatype Condition = Condition(reg: string, mod: Modifier, shift: Shift, mask: Word, val: Word)

  datatype Field = Field(reg: string, mod: Modifier, mask: Word, val: Word)

  /** The end of get_csr_mask_val_modifier. */
  function Extract(c: Condition): Field {
    match c.shift
    case NoShift => Field(c.reg, c.mod, c.mask, c.val)
    case Right(n) => Field(c.reg, c.mod, ShiftLeft(c.mask, n), ShiftLeft(c.val, n))
    case Left(n) => Field(c.reg, c.mod, ShiftRight(c.mask, n), ShiftRight(c.val, n))
  }

  function Shifted(x: Word, s: Shift): Word {
    match s
    case NoShift => x
    case Right(n) => ShiftRight(x, n)
    case Left(n) => ShiftLeft(x, n)
  }

  predicate ConditionHolds(c: Condition, x: Word) { Shifted(x, c.shift) * c.mask == c.val }

  predicate FieldHolds(f: Field, x: Word) { x * f.mask == f.val }

  /**
    A condition and its field agree on every CSR value, except that a left shift
    makes set low bits of val unreachable.
   */
  lemma {:induction false} ExtractMeaning(c: Condition, x: Word)
    ensures ConditionHolds(c, x) <==>
              FieldHolds(Extract(c), x) && (c.shift.Left? ==> forall b | b in c.val :: b >= c.shift.n)
  {
    match c.shift
    case NoShift =>
    case Right(n) => RightShiftClause(x, n, c.mask, c.val);
    case Left(n) => LeftShiftClause(x, n, c.mask, c.val);
  }

  // ---------------------------------------------------------------------
  // Merging the fields of one solution
  // ---------------------------------------------------------------------

  /** One register's row of reg_mask_val_mod_dict. */
  datatype Entry = Entry(mask: Word, val: Word, writeMask: Word, writeVal: Word, oldMask: Word, oldVal: Word)

  const NO_ENTRY := Entry({}, {}, {}, {}, {}, {})

  function Masks(fs: seq<Field>, reg: string, mod: Modifier): Word {
    set f, b | f in fs && f.reg == reg && f.mod == mod && b in f.mask :: b
  }

  function Vals(fs: seq<Field>, reg: string, mod: Modifier): Word {
    set f, b | f in fs && f.reg == reg && f.mod == mod && b in f.val :: b
  }

  function EntryOf(fs: seq<Field>, reg: string): Entry {
    Entry(Masks(fs, reg, Plain), Vals(fs, reg, Plain),
          Masks(fs, reg, Write), Vals(fs, reg, Write),
          Masks(fs, reg, Old), Vals(fs, reg, Old))
  }

  /** The register of the first modifier, which is the only one that may carry any. */
  function ModRegister(fs: seq<Field>): Option<string> {
    if fs == [] then None
    else if fs[0].mod != Plain then Some(fs[0].reg)
    else ModRegister(fs[1..])
  }

  /** The clauses that are not skipped: those matched, and among the modified ones those on the first register. */
  function Accepted(fs: seq<Option<Field>>): seq<Field> {
    if fs == [] then []
    else
      var before, f := Accepted(fs[..|fs| - 1]), fs[|fs| - 1];
      if f.None? then before
      else if f.value.mod != Plain && ModRegister(before).Some? && ModRegister(before).value != f.value.reg then before
      else before + [f.value]
  }

  /** The first clause with a modifier, if there is one. */
  ghost predicate FirstModified(fs: seq<Option<Field>>, q: int) {
    && 0 <= q < |fs| && fs[q].Some? && fs[q].value.mod != Plain
    && forall j | 0 <= j < q :: fs[j].None? || fs[j].value.mod == Plain
  }

  lemma {:induction false} ModRegisterFirst(fs: seq<Option<Field>>)
    ensures ModRegister(Accepted(fs)).Some? <==> exists q :: FirstModified(fs, q)
    ensures forall q | FirstModified(fs, q) :: ModRegister(Accepted(fs)) == Some(fs[q].value.reg)
  {
    if fs != [] {
      var n := |fs| - 1;
      var before := fs[..n];
      assert fs == before + [fs[n]];
      ModRegisterFirst(before);
      FirstLater(before, fs[n]);
      if fs[n].Some? { ModRegisterSnoc(Accepted(before), fs[n].value); }
    }
  }

  /** One clause more is the first with a modifier only if none before is. */
  lemma {:induction false} FirstLater(before: seq<Option<Field>>, f: Option<Field>)
    ensures forall q | q < |before| :: FirstModified(before + [f], q) <==> FirstModified(before, q)
    ensures FirstModified(before + [f], |before|)
            <==> f.Some? && f.value.mod != Plain && !exists q :: FirstModified(before, q)
  {
    var fs := before + [f];
    assert forall q | 0 <= q < |before| :: fs[q] == before[q];
    if !exists q :: FirstModified(before, q) {
      AllPlain(before);
    }
  }

  lemma {:induction false} AllPlain(fs: seq<Option<Field>>)
    requires !exists q :: FirstModified(fs, q)
    ensures forall j | 0 <= j < |fs| :: fs[j].None? || fs[j].value.mod == Plain
  {
    if fs != [] {
      var n := |fs| - 1;
      assert forall q | FirstModified(fs[..n], q) :: FirstModified(fs, q);
      AllPlain(fs[..n]);
      assert forall j | 0 <= j < n :: fs[..n][j] == fs[j];
      assert !FirstModified(fs, n);
    }
  }

  /** Accepted are all clauses without a modifier, and those with one on the register of the first. */
  lemma {:induction false} AcceptedIff(fs: seq<Option<Field>>, f: Field)
    ensures f in Accepted(fs)
            <==> Some(f) in fs && (f.mod == Plain || ModifiedAs(fs, f.reg))
  {
    if fs != [] {
      var n := |fs| - 1;
      var before := fs[..n];
      AcceptedIff(before, f);
      ModRegisterFirst(before);
      ModifiedLater(before, fs[n], f.reg);
      assert fs == before + [fs[n]];
      assert Some(f) in fs <==> Some(f) in before || fs[n] == Some(f);
    }
  }

  /** The first clause with a modifier has it on reg. */
  ghost predicate ModifiedAs(fs: seq<Option<Field>>, reg: string) {
    exists q :: FirstModified(fs, q) && fs[q].value.reg == reg
  }

  lemma {:induction false} ModifiedLater(before: seq<Option<Field>>, f: Option<Field>, reg: string)
    ensures ModifiedAs(before + [f], reg)
            <==> ModifiedAs(before, reg)
                 || (f.Some? && f.value.mod != Plain && f.value.reg == reg && !exists q :: FirstModified(before, q))
    ensures (exists q :: FirstModified(before, q)) || forall g | Some(g) in before :: g.mod == Plain
  {
    FirstLater(before, f);
    if !exists q :: FirstModified(before, q) {
      AllPlain(before);
    }
  }

  function Or(e: Entry, f: Field): Entry {
    match f.mod
    case Plain => e.(mask := e.mask + f.mask, val := e.val + f.val)
    case Write => e.(writeMask := e.writeMask + f.mask, writeVal := e.writeVal + f.val)
    case Old => e.(oldMask := e.oldMask + f.mask, oldVal := e.oldVal + f.val)
  }

  lemma {:induction false} MasksSnoc(fs: seq<Field>, f: Field, reg: string, mod: Modifier)
    ensures Masks(fs + [f], reg, mod)
         == if f.reg == reg && f.mod == mod then Masks(fs, reg, mod) + f.mask else Masks(fs, reg, mod)
    ensures Vals(fs + [f], reg, mod)
         == if f.reg == reg && f.mod == mod then Vals(fs, reg, mod) + f.val else Vals(fs, reg, mod)
  {
    assert forall g :: g in fs + [f] <==> g in fs || g == f;
  }

  lemma {:induction false} EntrySnoc(fs: seq<Field>, f: Field, reg: string)
    ensures EntryOf(fs + [f], reg) == if f.reg == reg then Or(EntryOf(fs, reg), f) else EntryOf(fs, reg)
  {
    MasksSnoc(fs, f, reg, Plain);
    MasksSnoc(fs, f, reg, Write);
    MasksSnoc(fs, f, reg, Old);
  }

  lemma {:induction false} NoFields(fs: seq<Field>, reg: string)
    requires forall f | f in fs :: f.reg != reg
    ensures EntryOf(fs, reg) == NO_ENTRY
  {
  }

  lemma {:induction false} ModRegisterSnoc(fs: seq<Field>, f: Field)
    ensures ModRegister(fs + [f]) == if ModRegister(fs).Some? then ModRegister(fs)
                                     else if f.mod != Plain then Some(f.reg) else None
  {
    if fs == [] {
      assert [f][1..] == [];
    } else {
      assert (fs + [f])[1..] == fs[1..] + [f];
      ModRegisterSnoc(fs[1..], f);
    }
  }

  method Merge(fields: seq<Option<Field>>) returns (dict: map<string, Entry>, modReg: Option<string>)
    ensures dict.Keys == set f | f in Accepted(fields) :: f.reg
    ensures forall reg | reg in dict :: dict[reg] == EntryOf(Accepted(fields), reg)
    ensures modReg == ModRegister(Accepted(fields))
  {
    dict, modReg := map[], None;
    for i := 0 to |fields|
      invariant dict.Keys == set f | f in Accepted(fields[..i]) :: f.reg
      invariant forall reg | reg in dict :: dict[reg] == EntryOf(Accepted(fields[..i]), reg)
      invariant modReg == ModRegister(Accepted(fields[..i]))
    {
      ghost var before := Accepted(fields[..i]);
      assert fields[..i + 1][..i] == fields[..i];
      if fields[i].None? {
        continue;
      }
      var f := fields[i].value;
      ModRegisterSnoc(before, f);
      if f.mod != Plain {
        if modReg.None? {
          modReg := Some(f.reg);
        } else if modReg.value != f.reg {
          continue;
        }
      }
      MergeStep(before, f, dict);
      dict := dict[f.reg := Or(if f.reg in dict then dict[f.reg] else NO_ENTRY, f)];
    }
    assert fields[..|fields|] == fields;
  }

  lemma {:induction false} MergeStep(before: seq<Field>, f: Field, dict: map<string, Entry>)
    requires dict.Keys == set g | g in before :: g.reg
    requires forall reg | reg in dict :: dict[reg] == EntryOf(before, reg)
    ensures dict.Keys + {f.reg} == set g | g in before + [f] :: g.reg
    ensures forall reg | reg in dict && reg != f.reg :: dict[reg] == EntryOf(before + [f], reg)
    ensures EntryOf(before + [f], f.reg) == Or(if f.reg in dict then dict[f.reg] else NO_ENTRY, f)
  {
    assert forall g :: g in before + [f] <==> g in before || g == f;
    forall reg | reg in dict ensures reg != f.reg ==> dict[reg] == EntryOf(before + [f], reg) {
      EntrySnoc(before, f, reg);
    }
    EntrySnoc(before, f, f.reg);
    if f.reg !in dict {
      NoFields(before, f.reg);
    }
  }

  // ---------------------------------------------------------------------
  // Writes and restores
  // ---------------------------------------------------------------------

  datatype CsrWrite = CsrWrite(reg: string, mask: Word, val: Word, restore: nat)

  /** The one or two writes of a register, saving to the restore registers from next on. */
  function EntryWrites(reg: string, e: Entry, next: nat): seq<CsrWrite> {
    var first := if e.oldMask != {} then [CsrWrite(reg, e.oldMask, e.oldVal, next)] else [];
    var second := if e.writeMask != {} then [CsrWrite(reg, e.writeMask, e.writeVal, next + |first|)]
                  else if e.mask != {} then [CsrWrite(reg, e.mask, e.val, next + |first|)]
                  else [];
    first + second
  }

  /** An item of the merged dictionary. */
  datatype Row = Row(reg: string, entry: Entry)

  function Writes(rows: seq<Row>, next: nat): seq<CsrWrite> {
    if rows == [] then []
    else
      var ws := EntryWrites(rows[0].reg, rows[0].entry, next);
      ws + Writes(rows[1..], next + |ws|)
  }

  function Reverse<T>(s: seq<T>): seq<T> {
    if s == [] then [] else Reverse(s[1..]) + [s[0]]
  }

  method EmitEntry(reg: string, e: Entry, next: nat) returns (ws: seq<CsrWrite>)
    ensures ws == EntryWrites(reg, e, next)
  {
    ws := [];
    var restore := next;
    if e.oldMask != {} {
      ws := ws + [CsrWrite(reg, e.oldMask, e.oldVal, restore)];
      restore := restore + 1;
    }
    if e.writeMask != {} {
      ws := ws + [CsrWrite(reg, e.writeMask, e.writeVal, restore)];
    } else if e.mask != {} {
      ws := ws + [CsrWrite(reg, e.mask, e.val, restore)];
    }
  }

  lemma {:induction false} WritesUnfold(was: seq<CsrWrite>, rows: seq<Row>, next: nat)
    requires rows != []
    ensures var ws := EntryWrites(rows[0].reg, rows[0].entry, next);
            was + Writes(rows, next) == was + ws + Writes(rows[1..], next + |ws|)
  {
  }

  method EmitWrites(rows: seq<Row>) returns (writes: seq<CsrWrite>, restores: seq<CsrWrite>)
    ensures writes == Writes(rows, 1) && restores == Reverse(writes)
  {
    writes, restores := [], [];
    for i := 0 to |rows|
      invariant restores == writes
      invariant Writes(rows, 1) == writes + Writes(rows[i..], 1 + |writes|)
    {
      assert rows[i..][1..] == rows[i + 1..];
      WritesUnfold(writes, rows[i..], 1 + |writes|);
      var ws := EmitEntry(rows[i].reg, rows[i].entry, 1 + |writes|);
      writes, restores := writes + ws, restores + ws;
    }
    restores := Reverse(restores);
  }

  /** A CSR to be read, and the offset its value is stored at. */
  datatype CsrRead = CsrRead(reg: string, offset: nat)

  /** A signature word: the base register's content, the offset, the value. */
  datatype Stored = Stored(base: Word, offset: nat, value: Word)

  datatype Machine = Machine(csrs: map<string, Word>, regs: map<nat, Word>, sig: seq<Stored>)

  function Reg(m: Machine, r: nat): Word {
    if r in m.regs then m.regs[r] else {}
  }

  function Csr(csrs: map<string, Word>, reg: string): Word {
    if reg in csrs then csrs[reg] else {}
  }

  const BASE_REG := 28
  const DEST_REG := 29
  const TEMP_REG_1 := 30
  const TEMP_REG_2 := 31

  /** WRITE_TO_CSR_FIELD_W_MASK, READ_CSR_REG_AND_UPD_SIG and RESTORE_CSR_REG. */
  function DoWrite(w: CsrWrite, m: Machine): Machine {
    var x := Csr(m.csrs, w.reg);
    m.(csrs := m.csrs[w.reg := (x - w.mask) + w.val],
        regs := m.regs[TEMP_REG_1 := w.mask][TEMP_REG_2 := w.val][w.restore := x])
  }

  function DoRead(r: CsrRead, m: Machine): Machine {
    var x := Csr(m.csrs, r.reg);
    m.(regs := m.regs[DEST_REG := x], sig := m.sig + [Stored(Reg(m, BASE_REG), r.offset, x)])
  }

  function DoRestore(w: CsrWrite, m: Machine): Machine
    requires w.restore in m.regs
  {
    m.(csrs := m.csrs[w.reg := m.regs[w.restore]])
  }

  function RunWrites(ws: seq<CsrWrite>, m: Machine): Machine {
    if ws == [] then m else RunWrites(ws[1..], DoWrite(ws[0], m))
  }

  function RunReads(rs: seq<CsrRead>, m: Machine): Machine {
    if rs == [] then m else RunReads(rs[1..], DoRead(rs[0], m))
  }

  ghost predicate Restorable(ws: seq<CsrWrite>, m: Machine) {
    forall w | w in ws :: w.restore in m.regs
  }

  function RunRestores(ws: seq<CsrWrite>, m: Machine): Machine
    requires Restorable(ws, m)
  {
    if ws == [] then m else RunRestores(ws[1..], DoRestore(ws[0], m))
  }

  // ---------------------------------------------------------------------
  // Restoring undoes writing
  // ---------------------------------------------------------------------

  /** The restore registers are next, next + 1, ... and stay below the three the macros use up. */
  ghost predicate Numbered(ws: seq<CsrWrite>, next: nat) {
    (forall i | 0 <= i < |ws| :: ws[i].restore == next + i) && next + |ws| <= DEST_REG
  }

  lemma {:induction false} WritesNumbered(rows: seq<Row>, next: nat)
    requires next + |Writes(rows, next)| <= DEST_REG
    ensures Numbered(Writes(rows, next), next)
  {
    if rows != [] {
      WritesNumbered(rows[1..], next + |EntryWrites(rows[0].reg, rows[0].entry, next)|);
    }
  }

  /** Writing keeps every register below the restore registers still to come. */
  lemma {:induction false} WritesKeepBelow(ws: seq<CsrWrite>, next: nat, m: Machine, r: nat)
    requires Numbered(ws, next) && r < next && r in m.regs
    ensures r in RunWrites(ws, m).regs && RunWrites(ws, m).regs[r] == m.regs[r]
    decreases |ws|
  {
    if ws != [] {
      WritesKeepBelow(ws[1..], next + 1, DoWrite(ws[0], m), r);
    }
  }

  /** What some reads store, given the CSRs and the base register. */
  function SigOf(rs: seq<CsrRead>, csrs: map<string, Word>, base: Word): seq<Stored> {
    seq(|rs|, i requires 0 <= i < |rs| => Stored(base, rs[i].offset, Csr(csrs, rs[i].reg)))
  }

  lemma {:induction false} ReadsKeep(rs: seq<CsrRead>, m: Machine)
    ensures RunReads(rs, m).csrs == m.csrs
    ensures forall r | r in m.regs && r != DEST_REG :: r in RunReads(rs, m).regs && RunReads(rs, m).regs[r] == m.regs[r]
    ensures RunReads(rs, m).sig == m.sig + SigOf(rs, m.csrs, Reg(m, BASE_REG))
    ensures rs != [] ==>
              Reg(RunReads(rs, m), DEST_REG) == Csr(m.csrs, rs[|rs| - 1].reg) && DEST_REG in RunReads(rs, m).regs
  {
    if rs != [] {
      ReadsKeep(rs[1..], DoRead(rs[0], m));
    }
  }

  lemma {:induction false} RestoresAppend(a: seq<CsrWrite>, b: seq<CsrWrite>, m: Machine)
    requires Restorable(a + b, m)
    ensures Restorable(a, m) && RunRestores(a, m).regs == m.regs && Restorable(b, RunRestores(a, m))
    ensures RunRestores(a + b, m) == RunRestores(b, RunRestores(a, m))
    decreases |a|
  {
    assert forall w | w in a :: w in a + b;
    assert forall w | w in b :: w in a + b;
    if a == [] {
      assert a + b == b;
    } else {
      assert (a + b)[1..] == a[1..] + b;
      RestoresAppend(a[1..], b, DoRestore(a[0], m));
    }
  }

  /**
    From any state with the same CSRs that still holds the saved words, restoring in
    reverse gives the first CSRs back.
   */
  lemma {:induction false} RestoreAfterWrites(ws: seq<CsrWrite>, next: nat, m: Machine, after: Machine)
    requires Numbered(ws, next) && forall w | w in ws :: w.reg in m.csrs
    requires after.csrs == RunWrites(ws, m).csrs
    requires forall r | next <= r < next + |ws| ::
               r in after.regs && r in RunWrites(ws, m).regs && after.regs[r] == RunWrites(ws, m).regs[r]
    ensures Restorable(Reverse(ws), after) && RunRestores(Reverse(ws), after).csrs == m.csrs
    decreases |ws|
  {
    if ws != [] {
      var m1 := DoWrite(ws[0], m);
      RestoreAfterWrites(ws[1..], next + 1, m1, after);
      WritesKeepBelow(ws[1..], next + 1, m1, next);
      assert next in after.regs && after.regs[next] == Csr(m.csrs, ws[0].reg);
      RestorableSnoc(Reverse(ws[1..]), ws[0], after);
      RestoresAppend(Reverse(ws[1..]), [ws[0]], after);
      var mid := RunRestores(Reverse(ws[1..]), after);
      assert [ws[0]][1..] == [];
      assert RunRestores([ws[0]], mid) == DoRestore(ws[0], mid);
      assert m1.csrs[ws[0].reg := m.csrs[ws[0].reg]] == m.csrs;
    }
  }

  lemma {:induction false} RestorableSnoc(ws: seq<CsrWrite>, w: CsrWrite, m: Machine)
    requires Restorable(ws, m) && w.restore in m.regs
    ensures Restorable(ws + [w], m)
  {
  }

  /**
    Writes, reads, then restores: every CSR is back as long as no restore register
    reaches the read register x29, and every read is stored through the signature
    base that was set up as long as none reaches x28.
   */
  lemma {:induction false} RestoreUndoesWrites(rows: seq<Row>, shown: seq<CsrRead>, m: Machine)
    requires (forall r | r in rows :: r.reg in m.csrs) && BASE_REG in m.regs
    requires 1 + |Writes(rows, 1)| <= DEST_REG
    ensures var ws := Writes(rows, 1);
            var after := RunReads(shown, RunWrites(ws, m));
            && Restorable(Reverse(ws), after) && RunRestores(Reverse(ws), after).csrs == m.csrs
            && (1 + |ws| <= BASE_REG ==>
                  after.sig == RunWrites(ws, m).sig + SigOf(shown, RunWrites(ws, m).csrs, m.regs[BASE_REG]))
  {
    var ws := Writes(rows, 1);
    WritesNumbered(rows, 1);
    WritesRegs(rows, 1);
    ReadsKeep(shown, RunWrites(ws, m));
    forall i | 1 <= i < 1 + |ws| ensures i in RunWrites(ws, m).regs {
      SavedThere(ws, 1, m, i);
    }
    RestoreAfterWrites(ws, 1, m, RunReads(shown, RunWrites(ws, m)));
    if 1 + |ws| <= BASE_REG {
      BaseKept(ws, 1, m);
    }
  }

  /** The first n writes leave the base register alone while n restore registers stay below it. */
  lemma {:induction false} BaseKept(ws: seq<CsrWrite>, next: nat, m: Machine)
    requires (forall i | 0 <= i < |ws| :: ws[i].restore == next + i) && next + |ws| <= BASE_REG && BASE_REG in m.regs
    ensures BASE_REG in RunWrites(ws, m).regs && RunWrites(ws, m).regs[BASE_REG] == m.regs[BASE_REG]
    decreases |ws|
  {
    if ws != [] {
      BaseKept(ws[1..], next + 1, DoWrite(ws[0], m));
    }
  }

  lemma {:induction false} WritesCount(rows: seq<Row>, next: nat)
    ensures forall i | 0 <= i < |Writes(rows, next)| :: Writes(rows, next)[i].restore == next + i
  {
    if rows != [] {
      WritesCount(rows[1..], next + |EntryWrites(rows[0].reg, rows[0].entry, next)|);
    }
  }

  /** Writes that save to other registers keep what the base register holds. */
  lemma {:induction false} LaterKeep(ws: seq<CsrWrite>, next: nat, m: Machine)
    requires (forall i | 0 <= i < |ws| :: ws[i].restore == next + i) && next > BASE_REG && BASE_REG in m.regs
    ensures BASE_REG in RunWrites(ws, m).regs && RunWrites(ws, m).regs[BASE_REG] == m.regs[BASE_REG]
    decreases |ws|
  {
    if ws != [] {
      LaterKeep(ws[1..], next + 1, DoWrite(ws[0], m));
    }
  }

  /** From the 28th write on the base register holds a saved CSR: the value, at that write, of the CSR it wrote. */
  lemma {:induction false} BaseLost(ws: seq<CsrWrite>, next: nat, m: Machine) returns (at: Machine)
    requires (forall i | 0 <= i < |ws| :: ws[i].restore == next + i) && next <= BASE_REG < next + |ws|
    ensures at == RunWrites(ws[..BASE_REG - next], m)
    ensures BASE_REG in RunWrites(ws, m).regs
    ensures RunWrites(ws, m).regs[BASE_REG] == Csr(at.csrs, ws[BASE_REG - next].reg)
    decreases |ws|
  {
    if next == BASE_REG {
      at := m;
      LaterKeep(ws[1..], next + 1, DoWrite(ws[0], m));
    } else {
      at := BaseLost(ws[1..], next + 1, DoWrite(ws[0], m));
      assert ws[..BASE_REG - next][1..] == ws[1..][..BASE_REG - next - 1];
    }
  }

  /**
    The same for a whole program, in both directions: its reads go through the
    base that was set up exactly if there are fewer than 28 writes, or the CSR
    saved by the 28th happened to hold the base itself.
   */
  lemma {:induction false} BaseKeptIff(rows: seq<Row>, m: Machine)
    requires BASE_REG in m.regs
    ensures var ws := Writes(rows, 1);
            Reg(RunWrites(ws, m), BASE_REG) == m.regs[BASE_REG]
            <==> (|ws| < 28 || Csr(RunWrites(ws[..27], m).csrs, ws[27].reg) == m.regs[BASE_REG])
  {
    var ws := Writes(rows, 1);
    WritesCount(rows, 1);
    if |ws| < 28 {
      BaseKept(ws, 1, m);
    } else {
      var at := BaseLost(ws, 1, m);
    }
  }

  lemma {:induction false} SavedThere(ws: seq<CsrWrite>, next: nat, m: Machine, r: nat)
    requires Numbered(ws, next) && next <= r < next + |ws|
    ensures r in RunWrites(ws, m).regs
    decreases |ws|
  {
    if r == next {
      WritesKeepBelow(ws[1..], next + 1, DoWrite(ws[0], m), r);
    } else {
      SavedThere(ws[1..], next + 1, DoWrite(ws[0], m), r);
    }
  }

  lemma {:induction false} WritesRegs(rows: seq<Row>, next: nat)
    ensures forall w | w in Writes(rows, next) :: exists r :: r in rows && r.reg == w.reg
  {
    if rows != [] {
      var ws := EntryWrites(rows[0].reg, rows[0].entry, next);
      WritesRegs(rows[1..], next + |ws|);
      forall w | w in Writes(rows, next) ensures exists r :: r in rows && r.reg == w.reg {
        if w in ws {
          assert rows[0] in rows && rows[0].reg == w.reg;
        } else {
          var r :| r in rows[1..] && r.reg == w.reg;
          assert r in rows;
        }
      }
    }
  }

  /**
    With 29 writes the last one's saved value is gone: its CSR is left with what
    was read last, unless an earlier write to it restores it after all.
   */
  lemma {:induction false} TooManyWritesLoseOne(rows: seq<Row>, shown: seq<CsrRead>, m: Machine)
    requires var ws := Writes(rows, 1); |ws| == 29 && shown != [] && forall i | 0 <= i < 28 :: ws[i].reg != ws[28].reg
    ensures var ws := Writes(rows, 1);
            var after := RunReads(shown, RunWrites(ws, m));
            && Restorable(Reverse(ws), after)
            && Csr(RunRestores(Reverse(ws), after).csrs, ws[28].reg) == Csr(after.csrs, shown[|shown| - 1].reg)
  {
    var ws := Writes(rows, 1);
    WritesCount(rows, 1);
    LastLost(ws, shown, m, RunReads(shown, RunWrites(ws, m)));
  }

  lemma {:induction false} LastLost(ws: seq<CsrWrite>, shown: seq<CsrRead>, m: Machine, after: Machine)
    requires |ws| == 29 && shown != [] && (forall i | 0 <= i < 29 :: ws[i].restore == 1 + i)
    requires forall i | 0 <= i < 28 :: ws[i].reg != ws[28].reg
    requires after == RunReads(shown, RunWrites(ws, m))
    ensures Restorable(Reverse(ws), after)
    ensures Csr(RunRestores(Reverse(ws), after).csrs, ws[28].reg) == Csr(after.csrs, shown[|shown| - 1].reg)
  {
    ReadsKeep(shown, RunWrites(ws, m));
    AllThere(ws, m, after);
    var front, last := ws[..28], ws[28];
    assert ws == front + [last] && forall w | w in front :: w in ws;
    ReverseMembers(front);
    LastFirst(front, last, after);
    RestoresKeepOther(Reverse(front), DoRestore(last, after), last.reg);
  }

  lemma {:induction false} AllThere(ws: seq<CsrWrite>, m: Machine, after: Machine)
    requires forall i | 0 <= i < |ws| :: ws[i].restore == 1 + i
    requires forall r | r in RunWrites(ws, m).regs :: r in after.regs
    ensures Restorable(ws, after)
  {
    forall w | w in ws ensures w.restore in after.regs {
      var i :| 0 <= i < |ws| && ws[i] == w;
      WrittenThere(ws, 1, m, i);
    }
  }

  lemma {:induction false} ReverseMembers<T>(s: seq<T>)
    ensures forall x :: x in Reverse(s) <==> x in s
  {
    if s != [] {
      ReverseMembers(s[1..]);
      assert forall x :: x in s <==> x == s[0] || x in s[1..];
    }
  }

  lemma {:induction false} ReverseSnoc<T>(s: seq<T>, x: T)
    ensures Reverse(s + [x]) == [x] + Reverse(s)
  {
    if s != [] {
      assert (s + [x])[1..] == s[1..] + [x];
      ReverseSnoc(s[1..], x);
    } else {
      assert ([] + [x])[1..] == [];
    }
  }

  lemma {:induction false} RestoresKeepOther(ws: seq<CsrWrite>, m: Machine, reg: string)
    requires Restorable(ws, m) && forall w | w in ws :: w.reg != reg
    ensures Csr(RunRestores(ws, m).csrs, reg) == Csr(m.csrs, reg)
  {
    if ws != [] {
      assert ws[0] in ws && forall w | w in ws[1..] :: w in ws;
      RestoresKeepOther(ws[1..], DoRestore(ws[0], m), reg);
    }
  }

  lemma {:induction false} RegsGrow(ws: seq<CsrWrite>, m: Machine)
    ensures forall r | r in m.regs :: r in RunWrites(ws, m).regs
  {
    if ws != [] { RegsGrow(ws[1..], DoWrite(ws[0], m)); }
  }

  lemma {:induction false} WrittenThere(ws: seq<CsrWrite>, next: nat, m: Machine, i: nat)
    requires i < |ws| && forall j | 0 <= j < |ws| :: ws[j].restore == next + j
    ensures ws[i].restore in RunWrites(ws, m).regs
    decreases |ws|
  {
    if i == 0 {
      RegsGrow(ws[1..], DoWrite(ws[0], m));
    } else {
      WrittenThere(ws[1..], next + 1, DoWrite(ws[0], m), i - 1);
    }
  }

  ghost predicate WritesTo(ws: seq<CsrWrite>, reg: string) {
    exists i :: 0 <= i < |ws| && ws[i].reg == reg
  }

  lemma {:induction false} WritesToRest(ws: seq<CsrWrite>, reg: string)
    requires ws != []
    ensures WritesTo(ws, reg) <==> ws[0].reg == reg || WritesTo(ws[1..], reg)
  {
    if i :| 0 <= i < |ws| && ws[i].reg == reg {
      assert i > 0 ==> ws[1..][i - 1].reg == reg;
    }
    if i :| 0 <= i < |ws[1..]| && ws[1..][i].reg == reg {
      assert ws[i + 1].reg == reg;
    }
  }

  lemma {:induction false} PutBack(csrs: map<string, Word>, written: string, n: Word, reg: string, v: Word)
    requires written in csrs
    ensures csrs[written := n][written := csrs[written]] == csrs
    ensures csrs[written := n][reg := v][written := csrs[written]] == if written == reg then csrs else csrs[reg := v]
  {
  }

  /**
    From a state in which one CSR has another value, restoring in reverse gives the
    first CSRs back if one of the writes restores that one too, and otherwise
    leaves it with its value.
   */
  lemma {:induction false} RestoreSpoiled(ws: seq<CsrWrite>, next: nat, m: Machine, after: Machine, reg: string,
                                          v: Word)
    requires Numbered(ws, next) && forall w | w in ws :: w.reg in m.csrs
    requires after.csrs == RunWrites(ws, m).csrs[reg := v]
    requires forall r | next <= r < next + |ws| ::
               r in after.regs && r in RunWrites(ws, m).regs && after.regs[r] == RunWrites(ws, m).regs[r]
    ensures Restorable(Reverse(ws), after)
    ensures RunRestores(Reverse(ws), after).csrs == if WritesTo(ws, reg) then m.csrs else m.csrs[reg := v]
    decreases |ws|
  {
    if ws != [] {
      var w, m1 := ws[0], DoWrite(ws[0], m);
      RestoreSpoiled(ws[1..], next + 1, m1, after, reg, v);
      WritesToRest(ws, reg);
      WritesKeepBelow(ws[1..], next + 1, m1, next);
      assert next in after.regs && after.regs[next] == Csr(m.csrs, w.reg);
      RestorableSnoc(Reverse(ws[1..]), w, after);
      RestoresAppend(Reverse(ws[1..]), [w], after);
      var mid := RunRestores(Reverse(ws[1..]), after);
      assert [w][1..] == [];
      assert RunRestores([w], mid) == DoRestore(w, mid);
      PutBack(m.csrs, w.reg, m1.csrs[w.reg], reg, v);
    }
  }

  /** The 29th write's restore takes what the last read left in its register. */
  lemma {:induction false} LastRestore(ws: seq<CsrWrite>, shown: seq<CsrRead>, m: Machine, after: Machine)
    requires |ws| == 29 && (forall i | 0 <= i < 29 :: ws[i].restore == 1 + i) && forall w | w in ws :: w.reg in m.csrs
    requires after == RunReads(shown, RunWrites(ws, m))
    ensures 29 in after.regs && forall r | 1 <= r < 29 :: r in after.regs
    ensures var front := RunWrites(ws[..28], m);
            forall r | 1 <= r < 29 :: r in front.regs && after.regs[r] == front.regs[r]
    ensures after.regs[29] == if shown == [] then Csr(RunWrites(ws[..28], m).csrs, ws[28].reg)
                              else Csr(after.csrs, shown[|shown| - 1].reg)
    ensures after.csrs[ws[28].reg := after.regs[29]] == RunWrites(ws[..28], m).csrs[ws[28].reg := after.regs[29]]
  {
    var front := ws[..28];
    assert ws == front + [ws[28]];
    RunWritesSnoc(front, ws[28], m);
    forall r | 1 <= r < 29 ensures r in RunWrites(front, m).regs { SavedThere(front, 1, m, r); }
    ReadsKeep(shown, RunWrites(ws, m));
  }

  lemma {:induction false} RunWritesSnoc(ws: seq<CsrWrite>, w: CsrWrite, m: Machine)
    ensures RunWrites(ws + [w], m) == DoWrite(w, RunWrites(ws, m))
    decreases |ws|
  {
    if ws == [] {
      assert ([] + [w])[1..] == [];
    } else {
      assert (ws + [w])[1..] == ws[1..] + [w];
      RunWritesSnoc(ws[1..], w, DoWrite(ws[0], m));
    }
  }

  /** A CSR that no write names keeps its value. */
  lemma {:induction false} Unwritten(ws: seq<CsrWrite>, m: Machine, reg: string)
    requires !WritesTo(ws, reg)
    ensures Csr(RunWrites(ws, m).csrs, reg) == Csr(m.csrs, reg)
    decreases |ws|
  {
    if ws != [] {
      WritesToRest(ws, reg);
      Unwritten(ws[1..], DoWrite(ws[0], m), reg);
    }
  }

  /** Restoring in reverse begins with the last write. */
  lemma {:induction false} LastFirst(front: seq<CsrWrite>, w: CsrWrite, m: Machine)
    requires Restorable(front + [w], m) && Restorable(Reverse(front), DoRestore(w, m))
    ensures Restorable(Reverse(front + [w]), m)
    ensures RunRestores(Reverse(front + [w]), m) == RunRestores(Reverse(front), DoRestore(w, m))
  {
    ReverseSnoc(front, w);
    ReverseMembers(front + [w]);
    assert Reverse(front + [w])[0] == w && Reverse(front + [w])[1..] == Reverse(front);
  }

  /**
    With 29 writes all CSRs come back just when nothing is read, an earlier write
    restores the last one's CSR too, or the value read last is the one it had.
   */
  lemma {:induction false} TwentyNineWritesIff(rows: seq<Row>, shown: seq<CsrRead>, m: Machine)
    requires |Writes(rows, 1)| == 29 && forall r | r in rows :: r.reg in m.csrs
    ensures var ws := Writes(rows, 1);
            var after := RunReads(shown, RunWrites(ws, m));
            && Restorable(Reverse(ws), after)
            && (RunRestores(Reverse(ws), after).csrs == m.csrs
                <==> (shown == [] || WritesTo(ws[..28], ws[28].reg)
                      || Csr(after.csrs, shown[|shown| - 1].reg) == Csr(m.csrs, ws[28].reg)))
  {
    var ws := Writes(rows, 1);
    var after := RunReads(shown, RunWrites(ws, m));
    WritesCount(rows, 1);
    WritesRegs(rows, 1);
    LastRestoreIff(ws, shown, m, after);
  }

  lemma {:induction false} LastRestoreIff(ws: seq<CsrWrite>, shown: seq<CsrRead>, m: Machine, after: Machine)
    requires |ws| == 29 && (forall i | 0 <= i < 29 :: ws[i].restore == 1 + i) && forall w | w in ws :: w.reg in m.csrs
    requires after == RunReads(shown, RunWrites(ws, m))
    ensures Restorable(Reverse(ws), after)
    ensures RunRestores(Reverse(ws), after).csrs == m.csrs
            <==> (shown == [] || WritesTo(ws[..28], ws[28].reg)
                  || Csr(after.csrs, shown[|shown| - 1].reg) == Csr(m.csrs, ws[28].reg))
  {
    var front, w := ws[..28], ws[28];
    LastRestore(ws, shown, m, after);
    var v := after.regs[29];
    var next := DoRestore(w, after);
    assert ws == front + [w];
    assert forall x | x in front :: x in ws;
    RestoreSpoiled(front, 1, m, next, w.reg, v);
    LastFirst(front, w, after);
    assert w in ws && w.reg in m.csrs;
    if !WritesTo(front, w.reg) {
      Unwritten(front, m, w.reg);
      Unchanged(m.csrs, w.reg, v);
    }
  }

  lemma {:induction false} Unchanged(csrs: map<string, Word>, reg: string, v: Word)
    requires reg in csrs
    ensures csrs[reg := v] == csrs <==> v == csrs[reg]
  {
    assert csrs[reg := v][reg] == v;
  }
}
