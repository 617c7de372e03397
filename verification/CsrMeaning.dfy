/**
  What the CSR writes of riscv_ctg/csr_comb.py mean: each clause of a solution
  holds after them, and with it the coverpoint.
 */
module CsrMeaning {
  import opened Wrappers
  import opened CsrFormula
  import opened CsrParser
  import opened CsrProgram
  import opened CsrTrueLists

  // ---------------------------------------------------------------------
  // What the writes leave in each CSR
  // ---------------------------------------------------------------------

  function Overwrite(x: Word, mask: Word, val: Word): Word {
    (x - mask) + val
  }

  /** The CSR just before the register's last write, and after it. */
  function OldValue(e: Entry, x: Word): Word {
    if e.oldMask != {} then Overwrite(x, e.oldMask, e.oldVal) else x
  }

  function NewValue(e: Entry, x: Word): Word {
    if e.writeMask != {} then Overwrite(OldValue(e, x), e.writeMask, e.writeVal)
    else if e.mask != {} then Overwrite(OldValue(e, x), e.mask, e.val)
    else OldValue(e, x)
  }

  lemma {:induction false} RunWritesAppend(a: seq<CsrWrite>, b: seq<CsrWrite>, m: Machine)
    ensures RunWrites(a + b, m) == RunWrites(b, RunWrites(a, m))
    decreases |a|
  {
    if a == [] {
      assert a + b == b;
    } else {
      assert (a + b)[1..] == a[1..] + b;
      RunWritesAppend(a[1..], b, DoWrite(a[0], m));
    }
  }

  lemma {:induction false} RunOneWrite(w: CsrWrite, m: Machine)
    ensures RunWrites([w], m) == DoWrite(w, m)
  {
  }

  lemma {:induction false} EntryEffect(reg: string, e: Entry, next: nat, m: Machine, q: string)
    ensures Csr(RunWrites(EntryWrites(reg, e, next), m).csrs, q)
         == if q == reg then NewValue(e, Csr(m.csrs, q)) else Csr(m.csrs, q)
  {
    var ws := EntryWrites(reg, e, next);
    if |ws| == 1 {
      RunOneWrite(ws[0], m);
      assert ws == [ws[0]];
    } else if |ws| == 2 {
      RunOneWrite(ws[0], m);
      RunOneWrite(ws[1], DoWrite(ws[0], m));
      RunWritesAppend([ws[0]], [ws[1]], m);
      assert ws == [ws[0]] + [ws[1]];
    }
  }

  ghost predicate DistinctRegs(rows: seq<Row>) {
    forall i, j | 0 <= i < j < |rows| :: rows[i].reg != rows[j].reg
  }

  /** Each register goes through its own row and no other. */
  lemma {:induction false} WritesEffect(rows: seq<Row>, next: nat, m: Machine, q: string)
    requires DistinctRegs(rows)
    ensures (forall r | r in rows :: r.reg != q) ==> Csr(RunWrites(Writes(rows, next), m).csrs, q) == Csr(m.csrs, q)
    ensures forall r | r in rows && r.reg == q ::
              Csr(RunWrites(Writes(rows, next), m).csrs, q) == NewValue(r.entry, Csr(m.csrs, q))
    decreases |rows|
  {
    if rows != [] {
      var ws := EntryWrites(rows[0].reg, rows[0].entry, next);
      RunWritesAppend(ws, Writes(rows[1..], next + |ws|), m);
      EntryEffect(rows[0].reg, rows[0].entry, next, m, q);
      WritesEffect(rows[1..], next + |ws|, RunWrites(ws, m), q);
      assert forall r :: r in rows <==> r == rows[0] || r in rows[1..];
    }
  }

  // ---------------------------------------------------------------------
  // The fields of a solution hold after its writes
  // ---------------------------------------------------------------------

  /** Values lie inside their masks, and fields of one register and one kind agree where their masks overlap. */
  ghost predicate Compatible(fs: seq<Field>) {
    && (forall f | f in fs :: f.val <= f.mask)
    && (forall f, g | f in fs && g in fs && f.reg == g.reg && f.mod == g.mod :: f.val * g.mask == g.val * f.mask)
  }

  /** A field is the part of the merged one under its mask. */
  lemma {:induction false} PartOf(fs: seq<Field>, f: Field)
    requires Compatible(fs) && f in fs
    ensures f.mask <= Masks(fs, f.reg, f.mod) && f.val == Vals(fs, f.reg, f.mod) * f.mask
  {
    var val := Vals(fs, f.reg, f.mod);
    forall b: nat ensures b in val * f.mask <==> b in f.val {
      if b in f.mask && b in val {
        var g :| g in fs && g.reg == f.reg && g.mod == f.mod && b in g.val;
        assert b in g.val * f.mask;
        assert b in f.val * g.mask;
      }
    }
  }

  /** Whatever the register held, writing the merged field makes each of its parts hold. */
  lemma {:induction false} MergedFieldHolds(fs: seq<Field>, f: Field, x: Word)
    requires Compatible(fs) && f in fs
    ensures FieldHolds(f, Overwrite(x, Masks(fs, f.reg, f.mod), Vals(fs, f.reg, f.mod)))
  {
    PartOf(fs, f);
  }

  lemma {:induction false} EmptyMask(fs: seq<Field>, f: Field, x: Word)
    requires Compatible(fs) && f in fs && Masks(fs, f.reg, f.mod) == {}
    ensures FieldHolds(f, x)
  {
    assert f.mask <= Masks(fs, f.reg, f.mod);
  }

  /** A field read in the state before the last write and the state after it. */
  ghost predicate HoldsAt(f: Field, before: map<string, Word>, after: map<string, Word>) {
    FieldHolds(f, Csr(if f.mod == Old then before else after, f.reg))
  }

  /**
    What the modified register needs for its clauses to be observed together: an
    old clause needs a later write to be older than, and where a write clause takes
    the place of the plain ones, it and the old clauses must leave what they ask for.
   */
  ghost predicate Observable(fs: seq<Field>) {
    ModRegister(fs).Some? ==> Observed(EntryOf(fs, ModRegister(fs).value))
  }

  predicate Observed(e: Entry) {
    && (e.oldMask != {} ==> e.writeMask != {} || e.mask != {})
    && (e.writeMask != {} ==> e.mask <= e.writeMask + e.oldMask && e.val == e.mask * Leaves(e))
  }

  /** The bits the old write and the write clause leave set. */
  function Leaves(e: Entry): Word {
    e.writeVal + (e.oldVal - e.writeMask)
  }

  lemma {:induction false} ModRegisterNone(fs: seq<Field>)
    ensures ModRegister(fs).None? <==> forall f | f in fs :: f.mod == Plain
  {
    if fs != [] {
      ModRegisterNone(fs[1..]);
      assert forall f :: f in fs <==> f == fs[0] || f in fs[1..];
    }
  }

  lemma {:induction false} AcceptedMods(fs: seq<Option<Field>>)
    ensures forall f | f in Accepted(fs) && f.mod != Plain :: ModRegister(Accepted(fs)) == Some(f.reg)
  {
    if fs != [] {
      var before, f := Accepted(fs[..|fs| - 1]), fs[|fs| - 1];
      AcceptedMods(fs[..|fs| - 1]);
      if f.Some? {
        ModRegisterSnoc(before, f.value);
        ModRegisterNone(before);
        assert forall g :: g in before + [f.value] <==> g in before || g == f.value;
      }
    }
  }

  /** The items of the merged dictionary, sorted so that the modified register comes last. */
  ghost predicate RowsOf(rows: seq<Row>, fs: seq<Field>) {
    && DistinctRegs(rows)
    && (forall r | r in rows :: r.entry == EntryOf(fs, r.reg) && exists f :: f in fs && f.reg == r.reg)
    && (forall f | f in fs :: Row(f.reg, EntryOf(fs, f.reg)) in rows)
    && (ModRegister(fs).Some? ==> rows != [] && rows[|rows| - 1].reg == ModRegister(fs).value)
  }

  /** With no modifiers every clause holds after the writes. */
  lemma {:induction false} PlainFieldsHold(fs: seq<Field>, rows: seq<Row>, m: Machine, f: Field)
    requires Compatible(fs) && RowsOf(rows, fs) && f in fs && f.mod == Plain
    requires EntryOf(fs, f.reg).oldMask == {} && EntryOf(fs, f.reg).writeMask == {}
    ensures FieldHolds(f, Csr(RunWrites(Writes(rows, 1), m).csrs, f.reg))
  {
    WritesEffect(rows, 1, m, f.reg);
    MergedFieldHolds(fs, f, Csr(m.csrs, f.reg));
    if Masks(fs, f.reg, Plain) == {} {
      EmptyMask(fs, f, Csr(m.csrs, f.reg));
    }
  }

  lemma {:induction false} WritesAppend(a: seq<Row>, b: seq<Row>, next: nat)
    ensures Writes(a + b, next) == Writes(a, next) + Writes(b, next + |Writes(a, next)|)
    decreases |a|
  {
    if a == [] {
      assert a + b == b;
    } else {
      assert (a + b)[1..] == a[1..] + b;
      WritesAppend(a[1..], b, next + |EntryWrites(a[0].reg, a[0].entry, next)|);
    }
  }

  function BeforeLast(ws: seq<CsrWrite>, m: Machine): Machine {
    if ws == [] then m else RunWrites(ws[..|ws| - 1], m)
  }

  /** Up to its last write, a register's row only performs the old write. */
  lemma {:induction false} EntryBeforeLast(reg: string, e: Entry, next: nat, m: Machine)
    requires e.writeMask != {} || e.mask != {}
    ensures var b := EntryWrites(reg, e, next);
            b != [] && b[|b| - 1].reg == reg
            && Csr(RunWrites(b[..|b| - 1], m).csrs, reg) == OldValue(e, Csr(m.csrs, reg))
  {
  }

  lemma {:induction false} OneRow(row: Row, next: nat)
    ensures Writes([row], next) == EntryWrites(row.reg, row.entry, next)
  {
  }

  lemma {:induction false} DistinctPrefix(pre: seq<Row>, row: Row)
    requires DistinctRegs(pre + [row])
    ensures DistinctRegs(pre) && forall r | r in pre :: r.reg != row.reg
  {
    var all := pre + [row];
    forall i, j | 0 <= i < j < |all| ensures all[i].reg != all[j].reg {
    }
    forall i, j | 0 <= i < j < |pre| ensures pre[i].reg != pre[j].reg {
      assert all[i] == pre[i] && all[j] == pre[j];
    }
    forall i | 0 <= i < |pre| ensures pre[i].reg != row.reg {
      assert all[i] == pre[i] && all[|pre|] == row;
    }
  }

  /** The modified register is written last, and its old clauses speak of the state right before. */
  lemma {:induction false} LastWrite(pre: seq<Row>, row: Row, m: Machine)
    requires DistinctRegs(pre + [row]) && (row.entry.writeMask != {} || row.entry.mask != {})
    ensures var ws := Writes(pre + [row], 1);
            ws != [] && ws[|ws| - 1].reg == row.reg
            && Csr(BeforeLast(ws, m).csrs, row.reg) == OldValue(row.entry, Csr(m.csrs, row.reg))
  {
    var a := Writes(pre, 1);
    var b := EntryWrites(row.reg, row.entry, 1 + |a|);
    assert Writes(pre + [row], 1) == a + b by {
      WritesAppend(pre, [row], 1);
      OneRow(row, 1 + |a|);
    }
    EntryBeforeLast(row.reg, row.entry, 1 + |a|, RunWrites(a, m));
    assert (a + b)[..|a + b| - 1] == a + b[..|b| - 1];
    RunWritesAppend(a, b[..|b| - 1], m);
    DistinctPrefix(pre, row);
    WritesEffect(pre, 1, m, row.reg);
  }

  lemma {:induction false} UnmodifiedEntry(fs: seq<Field>, reg: string)
    requires forall f | f in fs && f.reg == reg :: f.mod == Plain
    ensures EntryOf(fs, reg).oldMask == {} && EntryOf(fs, reg).writeMask == {}
  {
  }

  /** The modified register is written last, if it is written at all. */
  lemma {:induction false} ModifiedLast(fs: seq<Field>, rows: seq<Row>, m: Machine, reg: string)
    requires RowsOf(rows, fs) && ModRegister(fs) == Some(reg)
    ensures var e := EntryOf(fs, reg);
            var ws := Writes(rows, 1);
            && Csr(RunWrites(ws, m).csrs, reg) == NewValue(e, Csr(m.csrs, reg))
            && (e.writeMask != {} || e.mask != {} ==>
                  && ws != [] && ws[|ws| - 1].reg == reg
                  && Csr(BeforeLast(ws, m).csrs, reg) == OldValue(e, Csr(m.csrs, reg)))
  {
    var e := EntryOf(fs, reg);
    var row := rows[|rows| - 1];
    assert row in rows && row.entry == e;
    WritesEffect(rows, 1, m, reg);
    if e.writeMask != {} || e.mask != {} {
      assert rows == rows[..|rows| - 1] + [row];
      LastWrite(rows[..|rows| - 1], row, m);
    }
  }

  /** In a register with a write clause the plain clauses are not written, but hold if the other writes say so. */
  lemma {:induction false} DroppedHolds(fs: seq<Field>, f: Field, x: Word)
    requires Compatible(fs) && f in fs && f.mod == Plain
    requires var e := EntryOf(fs, f.reg); e.writeMask != {} && Observed(e)
    ensures FieldHolds(f, NewValue(EntryOf(fs, f.reg), x))
  {
    var e := EntryOf(fs, f.reg);
    PartOf(fs, f);
    forall b: nat ensures b in NewValue(e, x) * f.mask <==> b in f.val {
      if b in f.mask { assert b in e.mask; }
    }
  }

  lemma {:induction false} ModifiedHolds(fs: seq<Field>, rows: seq<Row>, m: Machine, f: Field)
    requires Compatible(fs) && RowsOf(rows, fs) && Observable(fs) && f in fs && ModRegister(fs) == Some(f.reg)
    ensures var ws := Writes(rows, 1); HoldsAt(f, BeforeLast(ws, m).csrs, RunWrites(ws, m).csrs)
    ensures f.mod != Plain && f.mask != {} ==> var ws := Writes(rows, 1); ws != [] && ws[|ws| - 1].reg == f.reg
  {
    var e, x := EntryOf(fs, f.reg), Csr(m.csrs, f.reg);
    var ws := Writes(rows, 1);
    ModifiedLast(fs, rows, m, f.reg);
    MergedFieldHolds(fs, f, x);
    MergedFieldHolds(fs, f, OldValue(e, x));
    assert f.mask <= Masks(fs, f.reg, f.mod);
    if Masks(fs, f.reg, f.mod) == {} {
      EmptyMask(fs, f, Csr(RunWrites(ws, m).csrs, f.reg));
      EmptyMask(fs, f, Csr(BeforeLast(ws, m).csrs, f.reg));
    } else if f.mod == Plain && e.writeMask != {} {
      DroppedHolds(fs, f, x);
    }
  }

  /** Every clause of an observable solution holds at the last write, whatever the CSRs held before. */
  lemma {:induction false} FieldsObserved(fs: seq<Field>, rows: seq<Row>, m: Machine, f: Field)
    requires Compatible(fs) && RowsOf(rows, fs) && Observable(fs)
    requires forall g | g in fs && g.mod != Plain :: ModRegister(fs) == Some(g.reg)
    requires f in fs
    ensures var ws := Writes(rows, 1); HoldsAt(f, BeforeLast(ws, m).csrs, RunWrites(ws, m).csrs)
    ensures f.mod != Plain && f.mask != {} ==> var ws := Writes(rows, 1); ws != [] && ws[|ws| - 1].reg == f.reg
  {
    ModRegisterNone(fs);
    if ModRegister(fs) != Some(f.reg) {
      UnmodifiedEntry(fs, f.reg);
      PlainFieldsHold(fs, rows, m, f);
    } else {
      ModifiedHolds(fs, rows, m, f);
    }
  }

  /** A register whose only write is the old one: nothing is written after it, and before it the CSR is as it was. */
  lemma {:induction false} OnlyOldWrite(fs: seq<Field>, rows: seq<Row>, m: Machine, reg: string)
    requires RowsOf(rows, fs) && ModRegister(fs) == Some(reg)
    requires var e := EntryOf(fs, reg); e.oldMask != {} && e.writeMask == {} && e.mask == {}
    ensures Csr(BeforeLast(Writes(rows, 1), m).csrs, reg) == Csr(m.csrs, reg)
  {
    var n := |rows| - 1;
    var pre, row := rows[..n], rows[n];
    assert rows == pre + [row] && row in rows;
    var a := Writes(pre, 1);
    var b := EntryWrites(reg, row.entry, 1 + |a|);
    assert Writes(rows, 1) == a + b by {
      WritesAppend(pre, [row], 1);
      OneRow(row, 1 + |a|);
    }
    assert |b| == 1 && (a + b)[..|a + b| - 1] == a;
    DistinctPrefix(pre, row);
    WritesEffect(pre, 1, m, reg);
  }

  /** The clause fails at the last write, from some CSR state. */
  ghost predicate Fails(f: Field, rows: seq<Row>, m: Machine) {
    var ws := Writes(rows, 1);
    !HoldsAt(f, BeforeLast(ws, m).csrs, RunWrites(ws, m).csrs)
  }

  function Holding(reg: string, x: Word): Machine {
    Machine(map[reg := x], map[], [])
  }

  /** An old clause with nothing to be older than. */
  lemma {:induction false} OldFails(fs: seq<Field>, rows: seq<Row>, reg: string) returns (f: Field, m: Machine)
    requires RowsOf(rows, fs) && ModRegister(fs) == Some(reg)
    requires var e := EntryOf(fs, reg); e.oldMask != {} && e.writeMask == {} && e.mask == {}
    ensures f in fs && Fails(f, rows, m)
  {
    var b :| b in EntryOf(fs, reg).oldMask;
    f :| f in fs && f.reg == reg && f.mod == Old && b in f.mask;
    m := Holding(reg, if b in f.val then {} else {b});
    OnlyOldWrite(fs, rows, m, reg);
    assert b in Csr(m.csrs, reg) * f.mask <==> b !in f.val;
  }

  /** A plain clause that asks for a bit the other writes leave as it was, or set otherwise. */
  lemma {:induction false} DroppedFails(fs: seq<Field>, rows: seq<Row>, reg: string) returns (f: Field, m: Machine)
    requires Compatible(fs) && RowsOf(rows, fs) && ModRegister(fs) == Some(reg)
    requires var e := EntryOf(fs, reg);
             e.writeMask != {} && !(e.mask <= e.writeMask + e.oldMask && e.val == e.mask * Leaves(e))
    ensures f in fs && Fails(f, rows, m)
  {
    var e := EntryOf(fs, reg);
    var all := e.writeMask + e.oldMask;
    ValsInMasks(fs, reg);
    var b :| b in e.mask && (b !in all || !(b in e.val <==> b in Leaves(e)));
    f :| f in fs && f.reg == reg && f.mod == Plain && b in f.mask;
    m := Holding(reg, if b in f.val then {} else {b});
    PartOf(fs, f);
    ModifiedLast(fs, rows, m, reg);
    WrongBit(e, f, Csr(m.csrs, reg), b);
  }

  lemma {:induction false} WrongBit(e: Entry, f: Field, x: Word, b: nat)
    requires e.writeMask != {} && e.writeVal <= e.writeMask && e.oldVal <= e.oldMask && b in f.mask
    requires if b in e.writeMask + e.oldMask then !(b in f.val <==> b in Leaves(e)) else b in x <==> b !in f.val
    ensures !FieldHolds(f, NewValue(e, x))
  {
    assert b in NewValue(e, x) * f.mask <==> b !in f.val;
  }

  lemma {:induction false} ValsInMasks(fs: seq<Field>, reg: string)
    requires Compatible(fs)
    ensures var e := EntryOf(fs, reg); e.val <= e.mask && e.writeVal <= e.writeMask && e.oldVal <= e.oldMask
  {
  }

  /** The clauses of a solution hold at its last write from every CSR state just when it is observable. */
  lemma {:induction false} ObservedIff(fs: seq<Field>, rows: seq<Row>)
    requires Compatible(fs) && RowsOf(rows, fs)
    requires forall g | g in fs && g.mod != Plain :: ModRegister(fs) == Some(g.reg)
    ensures (forall f, m | f in fs :: !Fails(f, rows, m)) <==> Observable(fs)
  {
    if Observable(fs) {
      forall f, m | f in fs ensures !Fails(f, rows, m) {
        FieldsObserved(fs, rows, m, f);
      }
    } else {
      var reg := ModRegister(fs).value;
      var e := EntryOf(fs, reg);
      if e.writeMask == {} {
        var f, m := OldFails(fs, rows, reg);
      } else {
        var f, m := DroppedFails(fs, rows, reg);
      }
    }
  }

  // ---------------------------------------------------------------------
  // From coverpoint text to CSR state
  // ---------------------------------------------------------------------

  /** The matching and evaluation of one clause's text; None when no pattern matches. */
  type Reader = Clause -> Option<Condition>

  function FieldsOf(cs: seq<Clause>, read: Reader): seq<Option<Field>> {
    seq(|cs|, i requires 0 <= i < |cs| =>
      match read(cs[i])
      case None => None
      case Some(c) => Some(Extract(c)))
  }

  predicate ClauseTrue(c: Clause, read: Reader, before: map<string, Word>, after: map<string, Word>) {
    match read(c)
    case None => false
    case Some(k) => ConditionHolds(k, Csr(if k.mod == Old then before else after, k.reg))
  }

  /** No clause of the solution is skipped, and no value asks for bits a left shift cannot give. */
  ghost predicate Usable(cs: seq<Clause>, read: Reader) {
    var fs := Accepted(FieldsOf(cs, read));
    forall c | c in cs ::
      && read(c).Some? && Extract(read(c).value) in fs
      && (read(c).value.shift.Left? ==> forall b | b in read(c).value.val :: b >= read(c).value.shift.n)
  }

  /** One program: what is written for a solution, and the same list turned round to restore. */
  ghost predicate ProgramFor(cs: seq<Clause>, read: Reader, ws: seq<CsrWrite>, rs: seq<CsrWrite>) {
    exists rows :: RowsOf(rows, Accepted(FieldsOf(cs, read))) && ws == Writes(rows, 1) && rs == Reverse(ws)
  }

  /** The clauses of e that hold around the last write. */
  function Held(e: Formula<Clause>, read: Reader, ws: seq<CsrWrite>, m: Machine): set<Clause> {
    set c | c in Clauses(e) && ClauseTrue(c, read, BeforeLast(ws, m).csrs, RunWrites(ws, m).csrs)
  }

  lemma {:induction false} ClauseHeld(cs: seq<Clause>, read: Reader, ws: seq<CsrWrite>, rs: seq<CsrWrite>, m: Machine,
                                      c: Clause)
    requires Usable(cs, read) && ProgramFor(cs, read, ws, rs) && c in cs
    requires Compatible(Accepted(FieldsOf(cs, read))) && Observable(Accepted(FieldsOf(cs, read)))
    ensures ClauseTrue(c, read, BeforeLast(ws, m).csrs, RunWrites(ws, m).csrs)
  {
    var fs := Accepted(FieldsOf(cs, read));
    var k := read(c).value;
    AcceptedMods(FieldsOf(cs, read));
    var rows: seq<Row> :| RowsOf(rows, fs) && ws == Writes(rows, 1) && rs == Reverse(ws);
    FieldsObserved(fs, rows, m, Extract(k));
    ExtractMeaning(k, Csr(if k.mod == Old then BeforeLast(ws, m).csrs else RunWrites(ws, m).csrs, k.reg));
  }

  lemma {:induction false} EnforcedHolds(e: Formula<Clause>, read: Reader, sol: Solution<Clause>,
                                         ws: seq<CsrWrite>, rs: seq<CsrWrite>, m: Machine)
    requires Enforced(e, true) && sol in Sat(e) && Usable(sol.trues, read) && ProgramFor(sol.trues, read, ws, rs)
    requires Compatible(Accepted(FieldsOf(sol.trues, read))) && Observable(Accepted(FieldsOf(sol.trues, read)))
    ensures Eval(e, Held(e, read, ws, m))
  {
    ListsAreClauses(e, sol);
    forall c | c in sol.trues ensures c in Held(e, read, ws, m) {
      ClauseHeld(sol.trues, read, ws, rs, m, c);
    }
    TruesEnforce(e, true, sol, Held(e, read, ws, m));
  }

  /**
    The whole path, from the text of a coverpoint to the CSRs: the text parses,
    and if its shape is enforced, in particular if it is built with `and`, `or`
    and brackets only, then after the writes of any solution the coverpoint
    holds, from any CSR state.
   */
  lemma {:induction false} CoverpointMet(text: Syntax, read: Reader, sol: Solution<Clause>, ws: seq<CsrWrite>,
                                         rs: seq<CsrWrite>, m: Machine)
    requires WellFormed(text, 0) && Trailing(text) <= 1 && Enforced(Tree(text), true)
    requires sol in Sat(Tree(text)) && Usable(sol.trues, read) && ProgramFor(sol.trues, read, ws, rs)
    requires Compatible(Accepted(FieldsOf(sol.trues, read))) && Observable(Accepted(FieldsOf(sol.trues, read)))
    ensures Parse(Print(text)) == Some(Tree(text)) && Eval(Tree(text), Held(Tree(text), read, ws, m))
  {
    ParseInvertsPrint(text);
    EnforcedHolds(Tree(text), read, sol, ws, rs, m);
  }

  // ---------------------------------------------------------------------
  // Where dropping the false list shows
  // ---------------------------------------------------------------------

  /** Plain clauses on registers of their own: none helps or hinders another. */
  ghost predicate Separate(e: Formula<Clause>, read: Reader) {
    && (forall c | c in Clauses(e) :: PlainClause(read(c)))
    && (forall c, d | c in Clauses(e) && d in Clauses(e) && c != d :: read(c).value.reg != read(d).value.reg)
  }

  predicate PlainClause(k: Option<Condition>) {
    k.Some? && k.value.mod == Plain && k.value.shift == NoShift && k.value.mask != {} && k.value.val <= k.value.mask
  }

  /** A CSR value that makes a plain clause true, or false. */
  function Witness(k: Condition, holds: bool): Word {
    if holds then k.val else if k.val == {} then k.mask else {}
  }

  /** The CSRs in which just the clauses of a hold. */
  function CsrsFor(e: Formula<Clause>, read: Reader, a: set<Clause>): map<string, Word>
    requires Separate(e, read)
  {
    map c | c in Clauses(e) :: read(c).value.reg := Witness(read(c).value, c in a)
  }

  lemma {:induction false} AllAccepted(fs: seq<Option<Field>>)
    requires forall f | f in fs :: f.Some? && f.value.mod == Plain
    ensures forall f :: f in Accepted(fs) <==> Some(f) in fs
    ensures ModRegister(Accepted(fs)).None?
  {
    if fs != [] {
      var n := |fs| - 1;
      assert forall f :: f in fs <==> f in fs[..n] || f == fs[n];
      AllAccepted(fs[..n]);
      ModRegisterNone(Accepted(fs));
    } else {
      ModRegisterNone(Accepted(fs));
    }
  }

  /** Separate clauses are all accepted, and nothing stands in their way. */
  lemma {:induction false} SeparateUsable(e: Formula<Clause>, read: Reader, cs: seq<Clause>)
    requires Separate(e, read) && forall c | c in cs :: c in Clauses(e)
    ensures var fs := Accepted(FieldsOf(cs, read));
            && Usable(cs, read) && Compatible(fs) && Observable(fs) && ModRegister(fs).None?
            && forall f :: f in fs <==> exists c :: c in cs && f == Extract(read(c).value)
  {
    var all := FieldsOf(cs, read);
    var fs := Accepted(all);
    forall f | f in all
      ensures f.Some? && f.value.mod == Plain && exists c :: c in cs && f.value == Extract(read(c).value)
    {
      var i :| 0 <= i < |cs| && all[i] == f;
      assert cs[i] in cs;
    }
    AllAccepted(all);
    forall c | c in cs ensures Extract(read(c).value) in fs {
      var i :| 0 <= i < |cs| && cs[i] == c;
      assert all[i] == Some(Extract(read(c).value));
    }
    assert forall f | f in fs :: Some(f) in all;
  }

  /** The rows of a program are those of the clauses it was made for. */
  lemma {:induction false} RowsOfOthers(e: Formula<Clause>, read: Reader, cs: seq<Clause>, rows: seq<Row>, c: Clause)
    requires Separate(e, read) && (forall d | d in cs :: d in Clauses(e)) && c in Clauses(e) && c !in cs
    requires RowsOf(rows, Accepted(FieldsOf(cs, read)))
    ensures DistinctRegs(rows) && forall r | r in rows :: r.reg != read(c).value.reg
  {
    var fs := Accepted(FieldsOf(cs, read));
    SeparateUsable(e, read, cs);
    forall r: Row | r in rows ensures r.reg != read(c).value.reg {
      var f :| f in fs && f.reg == r.reg;
      var d :| d in cs && f == Extract(read(d).value);
    }
  }

  /** Unless the program writes its register, a separate clause holds afterwards just if it did before. */
  lemma {:induction false} UnwrittenClause(e: Formula<Clause>, read: Reader, cs: seq<Clause>, ws: seq<CsrWrite>,
                                           rs: seq<CsrWrite>, a: set<Clause>, c: Clause)
    requires Separate(e, read) && (forall d | d in cs :: d in Clauses(e)) && c in Clauses(e) && c !in cs
    requires ProgramFor(cs, read, ws, rs)
    ensures var m := Machine(CsrsFor(e, read, a), map[], []);
            ClauseTrue(c, read, BeforeLast(ws, m).csrs, RunWrites(ws, m).csrs) <==> c in a
  {
    var m := Machine(CsrsFor(e, read, a), map[], []);
    var rows: seq<Row> :| RowsOf(rows, Accepted(FieldsOf(cs, read))) && ws == Writes(rows, 1) && rs == Reverse(ws);
    RowsOfOthers(e, read, cs, rows, c);
    WritesEffect(rows, 1, m, read(c).value.reg);
    CsrOf(e, read, a, c);
    WitnessMeaning(read(c).value, c in a);
  }

  lemma {:induction false} CsrOf(e: Formula<Clause>, read: Reader, a: set<Clause>, c: Clause)
    requires Separate(e, read) && c in Clauses(e)
    ensures Csr(CsrsFor(e, read, a), read(c).value.reg) == Witness(read(c).value, c in a)
  {
  }

  lemma {:induction false} WitnessMeaning(k: Condition, holds: bool)
    requires PlainClause(Some(k))
    ensures ConditionHolds(k, Witness(k, holds)) <==> holds
  {
    assert k.val * k.mask == k.val && k.mask * k.mask == k.mask;
  }

  /**
    The other half of CoverpointMet: if the shape is not enforced, then with
    separate clauses some solution fails from some CSR state, whatever program is
    generated for it.
   */
  lemma {:induction false} NotEnforcedFails(e: Formula<Clause>, read: Reader)
      returns (sol: Solution<Clause>, m: Machine)
    requires Linear(e) && !Enforced(e, true) && Separate(e, read)
    ensures sol in Sat(e)
    ensures forall ws, rs | ProgramFor(sol.trues, read, ws, rs) :: !Eval(e, Held(e, read, ws, m))
  {
    var a;
    sol, a := Wrong(e, true);
    m := Machine(CsrsFor(e, read, a), map[], []);
    ListsAreClauses(e, sol);
    SeparateUsable(e, read, sol.trues);
    forall ws, rs | ProgramFor(sol.trues, read, ws, rs) ensures !Eval(e, Held(e, read, ws, m)) {
      forall c | c in Clauses(e) ensures c in Held(e, read, ws, m) <==> c in a {
        if c in sol.trues {
          ClauseHeld(sol.trues, read, ws, rs, m, c);
          assert c in Orient(sol, true).trues;
        } else {
          UnwrittenClause(e, read, sol.trues, ws, rs, a, c);
        }
      }
      assert a * Clauses(e) == Held(e, read, ws, m) * Clauses(e);
      OnlyOwnClauses(e, a, Held(e, read, ws, m));
    }
  }

  /** The registers of some fields, each once. */
  function RegistersOf(fs: seq<Field>): (r: seq<string>)
    ensures forall x :: x in r <==> exists f :: f in fs && f.reg == x
    ensures forall i, j | 0 <= i < j < |r| :: r[i] != r[j]
  {
    if fs == [] then []
    else
      var rest := RegistersOf(fs[1..]);
      assert forall f :: f in fs <==> f == fs[0] || f in fs[1..];
      if fs[0].reg in rest then rest else [fs[0].reg] + rest
  }

  lemma {:induction false} RowsExist(fs: seq<Field>) returns (rows: seq<Row>)
    requires ModRegister(fs).None?
    ensures RowsOf(rows, fs)
  {
    var regs := RegistersOf(fs);
    rows := seq(|regs|, i requires 0 <= i < |regs| => Row(regs[i], EntryOf(fs, regs[i])));
    forall f | f in fs ensures Row(f.reg, EntryOf(fs, f.reg)) in rows {
      assert f.reg in regs;
      var i :| 0 <= i < |regs| && regs[i] == f.reg;
      assert rows[i] == Row(f.reg, EntryOf(fs, f.reg));
    }
    forall r | r in rows ensures r.entry == EntryOf(fs, r.reg) && exists f :: f in fs && f.reg == r.reg {
      assert r.reg in regs;
    }
  }

  lemma {:induction false} ProgramExists(e: Formula<Clause>, read: Reader, cs: seq<Clause>)
    returns (ws: seq<CsrWrite>, rs: seq<CsrWrite>)
    requires Separate(e, read) && forall c | c in cs :: c in Clauses(e)
    ensures ProgramFor(cs, read, ws, rs)
  {
    SeparateUsable(e, read, cs);
    var fs := Accepted(FieldsOf(cs, read));
    var rows := RowsExist(fs);
    ws, rs := Writes(rows, 1), Reverse(Writes(rows, 1));
  }

  /** After the writes of any solution, from any CSR state, the formula holds. */
  ghost predicate Obeyed(e: Formula<Clause>, read: Reader) {
    forall sol, ws, rs, m | sol in Sat(e) && ProgramFor(sol.trues, read, ws, rs) :: Eval(e, Held(e, read, ws, m))
  }

  /** With separate clauses, none repeated, the generated writes obey a formula exactly if its shape is enforced. */
  lemma {:induction false} ObeyedIff(e: Formula<Clause>, read: Reader)
    requires Linear(e) && Separate(e, read)
    ensures Obeyed(e, read) <==> Enforced(e, true)
  {
    if Enforced(e, true) {
      forall sol, ws, rs, m | sol in Sat(e) && ProgramFor(sol.trues, read, ws, rs)
          ensures Eval(e, Held(e, read, ws, m)) {
        ListsAreClauses(e, sol);
        SeparateUsable(e, read, sol.trues);
        EnforcedHolds(e, read, sol, ws, rs, m);
      }
    } else {
      var sol, m := NotEnforcedFails(e, read);
      ListsAreClauses(e, sol);
      var ws, rs := ProgramExists(e, read, sol.trues);
      assert !Eval(e, Held(e, read, ws, m));
    }
  }

  /** The smallest case: the one solution of `not c` has nothing to write, so it holds only where c already failed. */
  lemma {:induction false} NotIsNotEnforced(c: Clause, read: Reader, m: Machine)
    ensures Sat(Not(Literal(c))) == [Solution([], [c])]
    ensures RowsOf([], Accepted(FieldsOf([], read))) && Writes([], 1) == []
    ensures Eval(Not(Literal(c)), Held(Not(Literal(c)), read, [], m)) <==> !ClauseTrue(c, read, m.csrs, m.csrs)
  {
    assert FieldsOf([], read) == [];
    assert RunWrites([], m) == m && BeforeLast([], m) == m;
    assert c in Clauses(Not(Literal(c)));
  }
}
