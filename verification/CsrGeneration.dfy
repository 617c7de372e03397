/**
  `csr_comb` and the signature of `write_test` in riscv_ctg/csr_comb.py: every
  coverpoint becomes one program for each of its solutions.
 */
module CsrGeneration {
  import opened Wrappers
  import opened CsrFormula
  import opened CsrParser
  import opened CsrProgram
  import opened CsrMeaning
  import opened CsrTrueLists

  /** The sort: any order of the items that puts the modified register last. */
  method SortRows(dict: map<string, Entry>, modReg: Option<string>) returns (rows: seq<Row>)
    requires modReg.Some? ==> modReg.value in dict
    ensures DistinctRegs(rows)
    ensures forall r :: r in rows <==> r.reg in dict && r.entry == dict[r.reg]
    ensures modReg.Some? ==> rows != [] && rows[|rows| - 1].reg == modReg.value
  {
    var left := if modReg.Some? then dict.Keys - {modReg.value} else dict.Keys;
    rows := [];
    while left != {}
      invariant DistinctRegs(rows) && left <= dict.Keys
      invariant forall r :: r in rows <==>
                  r.reg in dict && r.entry == dict[r.reg] && r.reg !in left && Some(r.reg) != modReg
      invariant modReg.Some? ==> modReg.value !in left
      decreases left
    {
      var k :| k in left;
      rows, left := AppendRow(rows, Row(k, dict[k])), left - {k};
    }
    if modReg.Some? {
      rows := AppendRow(rows, Row(modReg.value, dict[modReg.value]));
    }
  }

  function AppendRow(rows: seq<Row>, row: Row): (r: seq<Row>)
    ensures |r| == |rows| + 1 && r[|rows|] == row
    ensures forall x :: x in r <==> x in rows || x == row
    ensures DistinctRegs(rows) && (forall x | x in rows :: x.reg != row.reg) ==> DistinctRegs(r)
  {
    rows + [row]
  }

  lemma {:induction false} ModRegisterIsThere(fs: seq<Field>)
    ensures ModRegister(fs).Some? ==> exists f :: f in fs && f.reg == ModRegister(fs).value
  {
    if fs != [] && fs[0].mod == Plain {
      ModRegisterIsThere(fs[1..]);
    }
  }

  // ---------------------------------------------------------------------
  // csr_comb
  // ---------------------------------------------------------------------

  /** What one solution becomes. */
  datatype Program = Program(writes: seq<CsrWrite>, shown: seq<CsrRead>, restores: seq<CsrWrite>)

  /** The offset of the n-th word. */
  function WordAt(n: nat, width: nat): nat {
    if n == 0 then 0 else WordAt(n - 1, width) + width
  }

  lemma {:induction false} WordAtIs(n: nat, width: nat)
    ensures WordAt(n, width) == n * width
  {
    if n > 0 {
      WordAtIs(n - 1, width);
      assert n * width == (n - 1) * width + width;
    }
  }

  lemma {:induction false} WordAtGrows(a: nat, b: nat, width: nat)
    requires a <= b && width > 0
    ensures WordAt(a, width) <= WordAt(b, width) && (a < b ==> WordAt(a, width) < WordAt(b, width))
    decreases b
  {
    if a < b { WordAtGrows(a, b - 1, width); }
  }

  /** Every register of the dictionary once, one word after the other from the n-th on. */
  function ReadsFor(rows: seq<Row>, n: nat, width: nat): seq<CsrRead> {
    seq(|rows|, i requires 0 <= i < |rows| => CsrRead(rows[i].reg, WordAt(n + i, width)))
  }

  /** Which lists of rows a solution's dictionary may be sorted into. */
  type RowTest = Solution<Clause> -> seq<Row> -> bool

  ghost function RowsFor(read: Reader): RowTest {
    (sol: Solution<Clause>) => (rows: seq<Row>) => RowsOf(rows, Accepted(FieldsOf(sol.trues, read)))
  }

  /** The program of a solution whose first read is the n-th of all. */
  ghost predicate ProgramOf(isRows: seq<Row> -> bool, p: Program, n: nat, width: nat) {
    exists rows :: isRows(rows) && Laid(rows, p, n, width)
  }

  ghost predicate Laid(rows: seq<Row>, p: Program, n: nat, width: nat) {
    p.writes == Writes(rows, 1) && p.restores == Reverse(p.writes) && p.shown == ReadsFor(rows, n, width)
  }

  method EmitReads(rows: seq<Row>, offset: nat, width: nat, ghost n: nat) returns (shown: seq<CsrRead>, next: nat)
    requires DistinctRegs(rows) && offset == WordAt(n, width)
    ensures shown == ReadsFor(rows, n, width) && next == WordAt(n + |shown|, width)
  {
    var uniq: set<string> := {};
    shown, next := [], offset;
    for i := 0 to |rows|
      invariant shown == ReadsFor(rows[..i], n, width) && next == WordAt(n + i, width)
      invariant forall x :: x in uniq <==> exists j :: 0 <= j < i && rows[j].reg == x
    {
      if rows[i].reg !in uniq {
        uniq := uniq + {rows[i].reg};
        shown := shown + [CsrRead(rows[i].reg, next)];
        next := next + width;
      }
    }
    assert rows[..|rows|] == rows;
  }

  method SolutionRows(cs: seq<Clause>, read: Reader) returns (rows: seq<Row>)
    ensures RowsOf(rows, Accepted(FieldsOf(cs, read)))
  {
    var fields := FieldsOf(cs, read);
    var dict, modReg := Merge(fields);
    ModRegisterIsThere(Accepted(fields));
    rows := SortRows(dict, modReg);
  }

  lemma {:induction false} RowsDistinct(rows: seq<Row>, fs: seq<Field>)
    requires RowsOf(rows, fs)
    ensures DistinctRegs(rows)
  {
  }

  /** Whatever rows the test must admit, it does. */
  ghost predicate Admits(test: RowTest, read: Reader) {
    forall sol: Solution<Clause>, rows | RowsOf(rows, Accepted(FieldsOf(sol.trues, read))) :: test(sol)(rows)
  }

  lemma {:induction false} Admitted(test: RowTest, read: Reader, sol: Solution<Clause>, rows: seq<Row>)
    requires Admits(test, read) && RowsOf(rows, Accepted(FieldsOf(sol.trues, read)))
    ensures test(sol)(rows)
  {
  }

  method EmitSolution(rows: seq<Row>, offset: nat, width: nat, ghost n: nat) returns (p: Program, next: nat)
    requires DistinctRegs(rows) && offset == WordAt(n, width)
    ensures Laid(rows, p, n, width) && next == WordAt(n + |p.shown|, width)
  {
    var writes, restores := EmitWrites(rows);
    var shown;
    shown, next := EmitReads(rows, offset, width, n);
    p := Program(writes, shown, restores);
  }

  method SolutionProgram(sol: Solution<Clause>, read: Reader, offset: nat, width: nat, ghost n: nat,
                         ghost test: RowTest)
    returns (p: Program, next: nat)
    requires offset == WordAt(n, width) && Admits(test, read)
    ensures ProgramOf(test(sol), p, n, width) && next == WordAt(n + |p.shown|, width)
  {
    var rows := SolutionRows(sol.trues, read);
    RowsDistinct(rows, Accepted(FieldsOf(sol.trues, read)));
    Admitted(test, read, sol, rows);
    p, next := EmitSolution(rows, offset, width, n);
  }

  function ReadCount(programs: seq<Program>): nat {
    if programs == [] then 0 else ReadCount(programs[..|programs| - 1]) + |programs[|programs| - 1].shown|
  }

  /** One program for each solution, in order, their reads counted through. */
  ghost predicate ProgramsFor(sols: seq<Solution<Clause>>, test: RowTest, programs: seq<Program>, width: nat) {
    && |programs| == |sols|
    && (sols == [] ||
        var n := |sols| - 1;
        && ProgramsFor(sols[..n], test, programs[..n], width)
        && ProgramOf(test(sols[n]), programs[n], ReadCount(programs[..n]), width))
  }

  lemma {:induction false} ProgramsSnoc(sols: seq<Solution<Clause>>, sol: Solution<Clause>, test: RowTest,
                                        programs: seq<Program>, p: Program, width: nat)
    requires ProgramsFor(sols, test, programs, width) && ProgramOf(test(sol), p, ReadCount(programs), width)
    ensures ProgramsFor(sols + [sol], test, programs + [p], width)
    ensures ReadCount(programs + [p]) == ReadCount(programs) + |p.shown|
  {
    assert (programs + [p])[..|programs|] == programs && (sols + [sol])[..|sols|] == sols;
  }

  /** So each solution has its own program. */
  lemma {:induction false} ProgramAt(sols: seq<Solution<Clause>>, test: RowTest, programs: seq<Program>, width: nat,
                                     i: nat)
    requires ProgramsFor(sols, test, programs, width) && i < |sols|
    ensures ProgramOf(test(sols[i]), programs[i], ReadCount(programs[..i]), width)
    decreases |sols|
  {
    var n := |sols| - 1;
    if i < n {
      ProgramAt(sols[..n], test, programs[..n], width, i);
      assert programs[..n][..i] == programs[..i];
    }
  }

  lemma {:induction false} TakeNone<T>(a: seq<T>, s: seq<T>)
    ensures a == a + s[..0]
  {
  }

  lemma {:induction false} TakeNext<T>(a: seq<T>, s: seq<T>, i: nat)
    requires i < |s|
    ensures a + s[..i + 1] == a + s[..i] + [s[i]]
  {
  }

  lemma {:induction false} TakeAll<T>(s: seq<T>)
    ensures s[..|s|] == s
  {
  }

  /** One more solution. */
  method EmitNext(sol: Solution<Clause>, read: Reader, width: nat, ghost done: seq<Solution<Clause>>,
                  ghost test: RowTest, programs0: seq<Program>, offset: nat)
    returns (programs: seq<Program>, next: nat)
    requires Admits(test, read) && ProgramsFor(done, test, programs0, width)
             && offset == WordAt(ReadCount(programs0), width)
    ensures ProgramsFor(done + [sol], test, programs, width) && next == WordAt(ReadCount(programs), width)
  {
    var p;
    p, next := SolutionProgram(sol, read, offset, width, ReadCount(programs0), test);
    ProgramsSnoc(done, sol, test, programs0, p, width);
    programs := programs0 + [p];
  }

  method EmitAll(sols: seq<Solution<Clause>>, read: Reader, width: nat, ghost done: seq<Solution<Clause>>,
                 ghost test: RowTest, programs0: seq<Program>, offset: nat)
    returns (programs: seq<Program>, next: nat)
    requires Admits(test, read) && ProgramsFor(done, test, programs0, width)
             && offset == WordAt(ReadCount(programs0), width)
    ensures ProgramsFor(done + sols, test, programs, width) && next == WordAt(ReadCount(programs), width)
  {
    programs, next := programs0, offset;
    ghost var all := done;
    TakeNone(done, sols);
    for i := 0 to |sols|
      invariant all == done + sols[..i]
      invariant ProgramsFor(all, test, programs, width) && next == WordAt(ReadCount(programs), width)
    {
      programs, next := EmitNext(sols[i], read, width, all, test, programs, next);
      TakeNext(done, sols, i);
      all := all + [sols[i]];
    }
    TakeAll(sols);
  }

  /** The solutions of all coverpoints that can be parsed. */
  function AllSolutions(covpts: seq<seq<Token>>): seq<Solution<Clause>> {
    if covpts == [] then []
    else
      var parsed := Parse(covpts[|covpts| - 1]);
      AllSolutions(covpts[..|covpts| - 1]) + if parsed.Some? then Sat(parsed.value) else []
  }

  lemma {:induction false} AllSolutionsNext(covpts: seq<seq<Token>>, i: nat)
    requires i < |covpts|
    ensures AllSolutions(covpts[..i + 1])
         == if Parse(covpts[i]).Some? then AllSolutions(covpts[..i]) + Sat(Parse(covpts[i]).value)
             else AllSolutions(covpts[..i])
  {
    assert covpts[..i + 1][..i] == covpts[..i];
  }

  /** One coverpoint: no program if it cannot be parsed, otherwise one for each solution, in order. */
  method EmitCoverpoint(covpt: seq<Token>, read: Reader, width: nat, ghost done: seq<Solution<Clause>>,
                        ghost test: RowTest, programs0: seq<Program>, offset: nat)
    returns (programs: seq<Program>, next: nat)
    requires Admits(test, read) && ProgramsFor(done, test, programs0, width)
             && offset == WordAt(ReadCount(programs0), width)
    ensures ProgramsFor(if Parse(covpt).Some? then done + Sat(Parse(covpt).value) else done, test, programs, width)
    ensures next == WordAt(ReadCount(programs), width)
  {
    programs, next := programs0, offset;
    var parsed := ParseCsrCovpt(covpt);
    if parsed.Some? {
      var sols := SatList(parsed.value);
      programs, next := EmitAll(sols, read, width, done, test, programs0, offset);
    }
  }

  method CombineAll(covpts: seq<seq<Token>>, read: Reader, width: nat, ghost test: RowTest)
      returns (programs: seq<Program>)
    requires Admits(test, read)
    ensures ProgramsFor(AllSolutions(covpts), test, programs, width)
  {
    programs := [];
    var offset := 0;
    for i := 0 to |covpts|
      invariant ProgramsFor(AllSolutions(covpts[..i]), test, programs, width)
      invariant offset == WordAt(ReadCount(programs), width)
    {
      AllSolutionsNext(covpts, i);
      programs, offset := EmitCoverpoint(covpts[i], read, width, AllSolutions(covpts[..i]), test, programs, offset);
    }
    TakeAll(covpts);
  }

  /** `csr_comb` on the coverpoints of a node; width is the register width in bytes. */
  method CsrComb(covpts: seq<seq<Token>>, read: Reader, width: nat) returns (programs: seq<Program>)
    ensures ProgramsFor(AllSolutions(covpts), RowsFor(read), programs, width)
  {
    assert Admits(RowsFor(read), read);
    programs := CombineAll(covpts, read, width, RowsFor(read));
  }

  /** The writes and restores are those whose meaning CoverpointMet and RestoreUndoesWrites state. */
  lemma {:induction false} GeneratedFor(sols: seq<Solution<Clause>>, read: Reader, programs: seq<Program>, width: nat,
                                        i: nat)
    requires ProgramsFor(sols, RowsFor(read), programs, width) && i < |sols|
    ensures ProgramFor(sols[i].trues, read, programs[i].writes, programs[i].restores)
  {
    ProgramAt(sols, RowsFor(read), programs, width, i);
    var rows :| RowsFor(read)(sols[i])(rows) && Laid(rows, programs[i], ReadCount(programs[..i]), width);
  }

  // ---------------------------------------------------------------------
  // From the coverpoints' texts to the CSRs
  // ---------------------------------------------------------------------

  /** The solutions of a coverpoint follow those of the coverpoints before it; a text that fails to parse has none. */
  lemma {:induction false} SolutionsAt(covpts: seq<seq<Token>>, i: nat)
    requires i < |covpts|
    ensures var start, next := |AllSolutions(covpts[..i])|, |AllSolutions(covpts[..i + 1])|;
            && start <= next <= |AllSolutions(covpts)|
            && AllSolutions(covpts)[start..next] == if Parse(covpts[i]).Some? then Sat(Parse(covpts[i]).value) else []
  {
    AllSolutionsNext(covpts, i);
    AllSolutionsMore(covpts, i + 1);
  }

  lemma {:induction false} AllSolutionsMore(covpts: seq<seq<Token>>, i: nat)
    requires i <= |covpts|
    ensures AllSolutions(covpts[..i]) <= AllSolutions(covpts)
    decreases |covpts|
  {
    if i == |covpts| {
      assert covpts[..i] == covpts;
    } else {
      var n := |covpts| - 1;
      AllSolutionsMore(covpts[..n], i);
      assert covpts[..n][..i] == covpts[..i];
    }
  }

  /** Nothing csr_comb has to respect of a solution stands in the way of its clauses. */
  ghost predicate Writable(sol: Solution<Clause>, read: Reader) {
    && Usable(sol.trues, read)
    && Compatible(Accepted(FieldsOf(sol.trues, read))) && Observable(Accepted(FieldsOf(sol.trues, read)))
  }

  /**
    For any list of texts: where one is the text of an enforced shape, each program
    generated for it makes it hold, from any CSR state.  Its k-th comes k after the
    programs of the texts before.
   */
  lemma {:induction false} CoverpointsMet(covpts: seq<seq<Token>>, read: Reader, programs: seq<Program>, width: nat,
                                          i: nat, text: Syntax, k: nat, at: nat, m: Machine)
    requires ProgramsFor(AllSolutions(covpts), RowsFor(read), programs, width) && i < |covpts|
    requires covpts[i] == Print(text) && WellFormed(text, 0) && Trailing(text) <= 1 && Enforced(Tree(text), true)
    requires k < |Sat(Tree(text))| && Writable(Sat(Tree(text))[k], read)
    requires at == |AllSolutions(covpts[..i])| + k
    ensures Makes(programs, at, Tree(text), read, m)
  {
    SolutionAt(covpts, i, text, k, at);
    SolutionMet(AllSolutions(covpts), read, programs, width, at, text, m);
  }

  /** Program i makes a formula hold. */
  ghost predicate Makes(programs: seq<Program>, i: nat, e: Formula<Clause>, read: Reader, m: Machine) {
    i < |programs| && Eval(e, Held(e, read, programs[i].writes, m))
  }

  lemma {:induction false} SolutionMet(sols: seq<Solution<Clause>>, read: Reader, programs: seq<Program>, width: nat,
                                       i: nat, text: Syntax, m: Machine)
    requires ProgramsFor(sols, RowsFor(read), programs, width) && i < |sols|
    requires WellFormed(text, 0) && Trailing(text) <= 1 && Enforced(Tree(text), true)
    requires sols[i] in Sat(Tree(text)) && Writable(sols[i], read)
    ensures Makes(programs, i, Tree(text), read, m)
  {
    GeneratedFor(sols, read, programs, width, i);
    CoverpointMet(text, read, sols[i], programs[i].writes, programs[i].restores, m);
  }

  lemma {:induction false} SolutionAt(covpts: seq<seq<Token>>, i: nat, text: Syntax, k: nat, at: nat)
    requires i < |covpts| && covpts[i] == Print(text) && WellFormed(text, 0) && Trailing(text) <= 1
    requires k < |Sat(Tree(text))| && at == |AllSolutions(covpts[..i])| + k
    ensures at < |AllSolutions(covpts)| && AllSolutions(covpts)[at] == Sat(Tree(text))[k]
  {
    ParseInvertsPrint(text);
    SolutionsAt(covpts, i);
    var start, next := |AllSolutions(covpts[..i])|, |AllSolutions(covpts[..i + 1])|;
    assert AllSolutions(covpts)[start..next] == Sat(Tree(text));
    assert AllSolutions(covpts)[start..next][k] == AllSolutions(covpts)[at];
  }

  /** How many of the writes go to a register. */
  function WriteCount(ws: seq<CsrWrite>, reg: string): nat {
    if ws == [] then 0 else (if ws[0].reg == reg then 1 else 0) + WriteCount(ws[1..], reg)
  }

  lemma {:induction false} WriteCountBoth(a: seq<CsrWrite>, b: seq<CsrWrite>, reg: string)
    ensures WriteCount(a + b, reg) == WriteCount(a, reg) + WriteCount(b, reg)
  {
    if a == [] {
      assert a + b == b;
    } else {
      WriteCountBoth(a[1..], b, reg);
      assert (a + b)[0] == a[0] && (a + b)[1..] == a[1..] + b;
    }
  }

  lemma {:induction false} NoneIdle(rows: seq<Row>, next: nat)
    ensures forall w | w in Writes(rows, next) :: w.mask != {}
    decreases |rows|
  {
    if rows != [] { NoneIdle(rows[1..], next + |EntryWrites(rows[0].reg, rows[0].entry, next)|); }
  }

  lemma {:induction false} NotNamed(rows: seq<Row>, next: nat, reg: string)
    requires forall r | r in rows :: r.reg != reg
    ensures WriteCount(Writes(rows, next), reg) == 0
    decreases |rows|
  {
    if rows != [] {
      var ws := EntryWrites(rows[0].reg, rows[0].entry, next);
      EntryCount(rows[0].reg, rows[0].entry, next, reg);
      WriteCountBoth(ws, Writes(rows[1..], next + |ws|), reg);
      NotNamed(rows[1..], next + |ws|, reg);
    }
  }

  lemma {:induction false} RowWrites(rows: seq<Row>, next: nat, j: nat)
    requires DistinctRegs(rows) && j < |rows|
    ensures WriteCount(Writes(rows, next), rows[j].reg) == WritesOf(rows[j].entry)
    decreases |rows|
  {
    var ws := EntryWrites(rows[0].reg, rows[0].entry, next);
    EntryCount(rows[0].reg, rows[0].entry, next, rows[j].reg);
    WriteCountBoth(ws, Writes(rows[1..], next + |ws|), rows[j].reg);
    if j == 0 {
      NotNamed(rows[1..], next + |ws|, rows[j].reg);
    } else {
      RowWrites(rows[1..], next + |ws|, j - 1);
    }
  }

  lemma {:induction false} EntryCount(own: string, e: Entry, next: nat, reg: string)
    ensures var ws := EntryWrites(own, e, next);
            WriteCount(ws, reg) == if own == reg then WritesOf(e) else 0
  {
    OwnWrites(EntryWrites(own, e, next), own, reg);
  }

  /** One write for the old clauses, and one for the write clauses or else the plain ones. */
  function WritesOf(e: Entry): nat {
    (if e.oldMask != {} then 1 else 0) + (if e.writeMask + e.mask != {} then 1 else 0)
  }

  lemma {:induction false} OwnWrites(ws: seq<CsrWrite>, own: string, reg: string)
    requires forall w | w in ws :: w.reg == own
    ensures WriteCount(ws, reg) == if own == reg then |ws| else 0
  {
    if ws != [] { OwnWrites(ws[1..], own, reg); }
  }

  /**
    No write is idle: a register is written once for its accepted old clauses, if
    there are any, and once for its other accepted clauses, if there are any.
   */
  lemma {:induction false} WritesNeeded(sols: seq<Solution<Clause>>, read: Reader, programs: seq<Program>, width: nat,
                                        i: nat, reg: string)
    requires ProgramsFor(sols, RowsFor(read), programs, width) && i < |sols|
    ensures forall w | w in programs[i].writes :: w.mask != {}
    ensures var fs := Accepted(FieldsOf(sols[i].trues, read));
            WriteCount(programs[i].writes, reg)
            == (if Masks(fs, reg, Old) != {} then 1 else 0)
               + (if Masks(fs, reg, Write) + Masks(fs, reg, Plain) != {} then 1 else 0)
  {
    var fs := Accepted(FieldsOf(sols[i].trues, read));
    ProgramAt(sols, RowsFor(read), programs, width, i);
    var rows :| RowsFor(read)(sols[i])(rows) && Laid(rows, programs[i], ReadCount(programs[..i]), width);
    NoneIdle(rows, 1);
    if f :| f in fs && f.reg == reg {
      var j :| 0 <= j < |rows| && rows[j] == Row(reg, EntryOf(fs, reg));
      RowWrites(rows, 1, j);
    } else {
      NotNamed(rows, 1, reg);
      assert forall mod :: Masks(fs, reg, mod) == {};
    }
  }

  // ---------------------------------------------------------------------
  // What a program reads
  // ---------------------------------------------------------------------

  /** The registers of a solution's accepted clauses. */
  function Registers(sol: Solution<Clause>, read: Reader): set<string> {
    set f | f in Accepted(FieldsOf(sol.trues, read)) :: f.reg
  }

  /** The reads name each of the registers once. */
  ghost predicate EachOnce(shown: seq<CsrRead>, regs: set<string>) {
    && (forall i, j | 0 <= i < j < |shown| :: shown[i].reg != shown[j].reg)
    && (forall x :: x in regs <==> exists j :: 0 <= j < |shown| && shown[j].reg == x)
  }

  /** One read after the other, a word apart, from the n-th word on. */
  ghost predicate WordByWord(shown: seq<CsrRead>, n: nat, width: nat) {
    forall j | 0 <= j < |shown| :: shown[j].offset == (n + j) * width
  }

  lemma {:induction false} LaidReads(rows: seq<Row>, sol: Solution<Clause>, read: Reader, p: Program, n: nat,
                                     width: nat)
    requires RowsOf(rows, Accepted(FieldsOf(sol.trues, read))) && Laid(rows, p, n, width)
    ensures EachOnce(p.shown, Registers(sol, read)) && WordByWord(p.shown, n, width)
  {
    var fs := Accepted(FieldsOf(sol.trues, read));
    forall x ensures x in Registers(sol, read) <==> exists j :: 0 <= j < |p.shown| && p.shown[j].reg == x {
      if x in Registers(sol, read) {
        var f :| f in fs && f.reg == x;
        var j :| 0 <= j < |rows| && rows[j] == Row(f.reg, EntryOf(fs, f.reg));
        assert p.shown[j].reg == x;
      }
      if j :| 0 <= j < |p.shown| && p.shown[j].reg == x {
        assert rows[j] in rows;
      }
    }
    forall j | 0 <= j < |p.shown| ensures p.shown[j].offset == (n + j) * width {
      WordAtIs(n + j, width);
    }
  }

  /** The program of every solution reads each register its accepted clauses name once, into words of its own. */
  lemma {:induction false} ReadsEachOnce(sols: seq<Solution<Clause>>, read: Reader, programs: seq<Program>,
                                         width: nat, i: nat)
    requires ProgramsFor(sols, RowsFor(read), programs, width) && i < |sols|
    ensures EachOnce(programs[i].shown, Registers(sols[i], read))
    ensures WordByWord(programs[i].shown, ReadCount(programs[..i]), width)
  {
    ProgramAt(sols, RowsFor(read), programs, width, i);
    var rows :| RowsFor(read)(sols[i])(rows) && Laid(rows, programs[i], ReadCount(programs[..i]), width);
    LaidReads(rows, sols[i], read, programs[i], ReadCount(programs[..i]), width);
  }

  /** What the machine has stored for read j once a program has written and read. */
  function StoredFor(p: Program, m: Machine, j: nat): Stored
    requires j < |p.shown|
  {
    Stored(Reg(RunWrites(p.writes, m), BASE_REG), p.shown[j].offset,
           Csr(RunWrites(p.writes, m).csrs, p.shown[j].reg))
  }

  lemma {:induction false} LaidStores(rows: seq<Row>, sol: Solution<Clause>, read: Reader, p: Program, n: nat,
                                      width: nat, m: Machine, j: nat)
    requires RowsOf(rows, Accepted(FieldsOf(sol.trues, read))) && Laid(rows, p, n, width) && j < |p.shown|
    ensures Csr(RunWrites(p.writes, m).csrs, p.shown[j].reg)
         == NewValue(EntryOf(Accepted(FieldsOf(sol.trues, read)), p.shown[j].reg), Csr(m.csrs, p.shown[j].reg))
  {
    assert rows[j] in rows;
    WritesEffect(rows, 1, m, p.shown[j].reg);
  }

  /**
    After its writes and reads the signature has one word more for each register the
    accepted clauses name, at the register's own offset: the value the register has
    got.  With fewer than 28 writes each is stored through the base set up.
   */
  lemma {:induction false} SignatureHolds(sols: seq<Solution<Clause>>, read: Reader, programs: seq<Program>,
                                          width: nat, i: nat, m: Machine)
    requires ProgramsFor(sols, RowsFor(read), programs, width) && i < |sols|
    ensures var p := programs[i];
            var after := RunReads(p.shown, RunWrites(p.writes, m));
            && |after.sig| == |m.sig| + |p.shown| && after.sig[..|m.sig|] == m.sig
            && (forall j | 0 <= j < |p.shown| :: after.sig[|m.sig| + j] == StoredFor(p, m, j))
            && (forall j | 0 <= j < |p.shown| ::
                  StoredFor(p, m, j).value
                  == NewValue(EntryOf(Accepted(FieldsOf(sols[i].trues, read)), p.shown[j].reg),
                              Csr(m.csrs, p.shown[j].reg)))
            && (|p.writes| < 28 && BASE_REG in m.regs ==>
                  forall j | 0 <= j < |p.shown| :: StoredFor(p, m, j).base == m.regs[BASE_REG])
  {
    var p := programs[i];
    ProgramAt(sols, RowsFor(read), programs, width, i);
    var n := ReadCount(programs[..i]);
    var rows :| RowsFor(read)(sols[i])(rows) && Laid(rows, p, n, width);
    SignatureGrows(p, m);
    forall j | 0 <= j < |p.shown|
      ensures StoredFor(p, m, j).value
           == NewValue(EntryOf(Accepted(FieldsOf(sols[i].trues, read)), p.shown[j].reg), Csr(m.csrs, p.shown[j].reg))
    {
      LaidStores(rows, sols[i], read, p, n, width, m, j);
    }
    if BASE_REG in m.regs {
      BaseKeptIff(rows, m);
    }
  }

  lemma {:induction false} SignatureGrows(p: Program, m: Machine)
    ensures var after := RunReads(p.shown, RunWrites(p.writes, m));
            && |after.sig| == |m.sig| + |p.shown| && after.sig[..|m.sig|] == m.sig
            && forall j | 0 <= j < |p.shown| :: after.sig[|m.sig| + j] == StoredFor(p, m, j)
  {
    WritesKeepSig(p.writes, m);
    ReadsKeep(p.shown, RunWrites(p.writes, m));
  }

  lemma {:induction false} WritesKeepSig(ws: seq<CsrWrite>, m: Machine)
    ensures RunWrites(ws, m).sig == m.sig
    decreases |ws|
  {
    if ws != [] { WritesKeepSig(ws[1..], DoWrite(ws[0], m)); }
  }

  // ---------------------------------------------------------------------
  // The signature region
  // ---------------------------------------------------------------------

  /** `write_test` reserves one word for each program. */
  ghost predicate SignatureFits(programs: seq<Program>, width: nat) {
    forall i, j | 0 <= i < |programs| && 0 <= j < |programs[i].shown| ::
      programs[i].shown[j].offset + width <= WordAt(|programs|, width)
  }

  lemma {:induction false} CountAt(programs: seq<Program>, i: nat)
    requires i < |programs|
    ensures ReadCount(programs[..i]) + |programs[i].shown| <= ReadCount(programs)
    decreases |programs|
  {
    var n := |programs| - 1;
    if i < n {
      assert programs[..n][..i] == programs[..i];
      CountAt(programs[..n], i);
    }
  }

  /** Some program has the last read. */
  lemma {:induction false} LastRead(programs: seq<Program>) returns (i: nat)
    requires ReadCount(programs) > 0
    ensures i < |programs| && programs[i].shown != []
            && ReadCount(programs[..i]) + |programs[i].shown| == ReadCount(programs)
  {
    var n := |programs| - 1;
    if programs[n].shown != [] {
      i := n;
    } else {
      i := LastRead(programs[..n]);
      assert programs[..n][..i] == programs[..i];
    }
  }

  lemma {:induction false} OffsetAt(sols: seq<Solution<Clause>>, test: RowTest, programs: seq<Program>, width: nat,
                                    i: nat, j: nat)
    requires ProgramsFor(sols, test, programs, width) && i < |programs| && j < |programs[i].shown|
    ensures programs[i].shown[j].offset + width == WordAt(ReadCount(programs[..i]) + j + 1, width)
  {
    ProgramAt(sols, test, programs, width, i);
  }

  /** The reads stay in the region exactly if there are no more of them than solutions. */
  lemma {:induction false} ReadsFitIff(sols: seq<Solution<Clause>>, test: RowTest, programs: seq<Program>, width: nat)
    requires ProgramsFor(sols, test, programs, width) && width > 0
    ensures SignatureFits(programs, width) <==> ReadCount(programs) <= |programs|
  {
    if ReadCount(programs) <= |programs| {
      forall i, j | 0 <= i < |programs| && 0 <= j < |programs[i].shown|
        ensures programs[i].shown[j].offset + width <= WordAt(|programs|, width)
      {
        OffsetAt(sols, test, programs, width, i, j);
        CountAt(programs, i);
        WordAtGrows(ReadCount(programs[..i]) + j + 1, |programs|, width);
      }
    } else {
      var i := LastRead(programs);
      OffsetAt(sols, test, programs, width, i, |programs[i].shown| - 1);
      WordAtGrows(|programs|, ReadCount(programs), width);
    }
  }

  /** How many registers the solutions name, each solution counted by itself. */
  function RegisterCount(sols: seq<Solution<Clause>>, read: Reader): nat {
    if sols == [] then 0 else RegisterCount(sols[..|sols| - 1], read) + |Registers(sols[|sols| - 1], read)|
  }

  lemma {:induction false} RowRegs(rows: seq<Row>, n: nat) returns (regs: set<string>)
    requires DistinctRegs(rows) && n <= |rows|
    ensures |regs| == n && forall x :: x in regs <==> exists k :: 0 <= k < n && rows[k].reg == x
  {
    regs := {};
    for k := 0 to n
      invariant |regs| == k && forall x :: x in regs <==> exists j :: 0 <= j < k && rows[j].reg == x
    {
      regs := regs + {rows[k].reg};
    }
  }

  lemma {:induction false} RowCount(rows: seq<Row>, sol: Solution<Clause>, read: Reader)
    requires RowsOf(rows, Accepted(FieldsOf(sol.trues, read)))
    ensures |rows| == |Registers(sol, read)|
  {
    var fs := Accepted(FieldsOf(sol.trues, read));
    var regs := RowRegs(rows, |rows|);
    forall x ensures x in regs <==> x in Registers(sol, read) {
      if x in regs {
        var k :| 0 <= k < |rows| && rows[k].reg == x;
        assert rows[k] in rows;
      }
      if x in Registers(sol, read) {
        var f :| f in fs && f.reg == x;
        assert Row(f.reg, EntryOf(fs, f.reg)) in rows;
      }
    }
    assert regs == Registers(sol, read);
  }

  /** There is a read for each of them. */
  lemma {:induction false} ReadsAreRegisters(sols: seq<Solution<Clause>>, read: Reader, programs: seq<Program>,
                                             width: nat)
    requires ProgramsFor(sols, RowsFor(read), programs, width)
    ensures ReadCount(programs) == RegisterCount(sols, read)
  {
    if sols != [] {
      var n := |sols| - 1;
      ReadsAreRegisters(sols[..n], read, programs[..n], width);
      var rows :| RowsFor(read)(sols[n])(rows) && Laid(rows, programs[n], ReadCount(programs[..n]), width);
      RowCount(rows, sols[n], read);
    }
  }

  /**
    For the programs of any coverpoints: their reads stay in the region exactly if
    the solutions name no more registers than there are solutions.
   */
  lemma {:induction false} SignatureFitsIff(covpts: seq<seq<Token>>, read: Reader, programs: seq<Program>, width: nat)
    requires ProgramsFor(AllSolutions(covpts), RowsFor(read), programs, width) && width > 0
    ensures SignatureFits(programs, width)
            <==> RegisterCount(AllSolutions(covpts), read) <= |AllSolutions(covpts)|
  {
    ReadsFitIff(AllSolutions(covpts), RowsFor(read), programs, width);
    ReadsAreRegisters(AllSolutions(covpts), read, programs, width);
  }

  /** `c and d` has one solution, with both clauses. */
  lemma {:induction false} AndSolution(c: Clause, d: Clause)
    requires IsClause(c) && IsClause(d)
    ensures AllSolutions([Print(AndS(Atom(c), Atom(d)))]) == [Solution([c, d], [])]
  {
    var text := AndS(Atom(c), Atom(d));
    ParseInvertsPrint(text);
    var l, r := Solution([c], []), Solution([d], []);
    assert [l][1..] == [] && [r][1..] == [];
    assert AndAll([l], [r]) == AndRow(l, [r]) + AndAll([], [r]);
    assert AndRow(l, [r]) == [Join(l, r)] + AndRow(l, []);
    assert [c] + [d] == [c, d] && l.falses + r.falses == [];
    assert Join(l, r) == Solution([c, d], []);
    assert Sat(Tree(text)) == [Solution([c, d], [])];
    assert AllSolutions([]) == [];
    assert [Print(text)][..0] == [];
  }

  /**
    So for `c and d` on two different registers csr_comb makes a program that writes
    past its region, unless both carry modifiers and d is skipped.
   */
  lemma {:induction false} TwoRegistersOverflow(c: Clause, d: Clause, read: Reader, programs: seq<Program>, width: nat)
    requires IsClause(c) && IsClause(d) && read(c).Some? && read(d).Some? && width > 0
    requires read(c).value.reg != read(d).value.reg
    requires ProgramsFor(AllSolutions([Print(AndS(Atom(c), Atom(d)))]), RowsFor(read), programs, width)
    ensures SignatureFits(programs, width) <==> read(c).value.mod != Plain && read(d).value.mod != Plain
  {
    var sol := Solution([c, d], []);
    AndSolution(c, d);
    BothAccepted(c, d, read);
    SignatureFitsIff([Print(AndS(Atom(c), Atom(d)))], read, programs, width);
    assert [sol][..0] == [];
    assert RegisterCount([sol], read) == RegisterCount([], read) + |Registers(sol, read)|;
  }

  lemma {:induction false} BothAccepted(c: Clause, d: Clause, read: Reader)
    requires read(c).Some? && read(d).Some? && read(c).value.reg != read(d).value.reg
    ensures |Registers(Solution([c, d], []), read)|
         == if read(c).value.mod != Plain && read(d).value.mod != Plain then 1 else 2
  {
    var f, g := Extract(read(c).value), Extract(read(d).value);
    assert FieldsOf([c, d], read) == [Some(f)] + [Some(g)];
    AcceptedTwo(f, g);
    if f.mod != Plain && g.mod != Plain {
      assert Registers(Solution([c, d], []), read) == {f.reg};
    } else {
      assert Registers(Solution([c, d], []), read) == {f.reg, g.reg};
    }
  }

  lemma {:induction false} AcceptedTwo(f: Field, g: Field)
    requires f.reg != g.reg
    ensures Accepted([Some(f)] + [Some(g)]) == if f.mod != Plain && g.mod != Plain then [f] else [f, g]
  {
    var one, none: seq<Option<Field>> := [Some(f)], [];
    assert (one + [Some(g)])[..1] == one && one[..0] == none;
    assert Accepted(none) == [] && Accepted(one) == [f];
    ModRegisterSnoc([], f);
    assert [] + [f] == [f] && [f] + [g] == [f, g];
  }
}
