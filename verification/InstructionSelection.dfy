/**
  `gen_inst` of riscv_ctg/generator.py: operand tuples and value tuples are put
  together, values of aliased operands are repaired, aliased combinations are
  repeated with default registers, and candidates that add no coverage are dropped.
 */
module InstructionSelection {
  import opened Wrappers
  import opened RegisterAllocation
  import OperandSearch
  import ValueSearch

  // ---------------------------------------------------------------------
  // Alias repair
  // ---------------------------------------------------------------------

  /** valOf[x] is the place among the values of operand x's value, for operands that have one; no two share a place. */
  ghost predicate Places(valOf: seq<Option<nat>>, n: nat) {
    && (forall x | 0 <= x < |valOf| && valOf[x].Some? :: valOf[x].value < n)
    && (forall x, y | 0 <= x < y < |valOf| && valOf[x].Some? :: valOf[x] != valOf[y])
  }

  /** The first operand with a value that is the same register. */
  function First(op: seq<Reg>, valOf: seq<Option<nat>>, x: nat): (y: nat)
    requires x < |op| == |valOf| && valOf[x].Some?
    ensures y <= x && op[y] == op[x] && valOf[y].Some?
    ensures forall z | 0 <= z < y :: valOf[z].Some? ==> op[z] != op[x]
  {
    FirstFrom(op, valOf, x, 0)
  }

  function FirstFrom(op: seq<Reg>, valOf: seq<Option<nat>>, x: nat, y: nat): (r: nat)
    requires y <= x < |op| == |valOf| && valOf[x].Some?
    ensures y <= r <= x && op[r] == op[x] && valOf[r].Some?
    ensures forall z | y <= z < r :: valOf[z].Some? ==> op[z] != op[x]
    decreases x - y
  {
    if valOf[y].Some? && op[y] == op[x] then y else FirstFrom(op, valOf, x, y + 1)
  }

  /** The value operand x ends up with. */
  function Target(op: seq<Reg>, valOf: seq<Option<nat>>, val: seq<int>, x: nat): int
    requires |op| == |valOf| && Places(valOf, |val|) && x < |op| && valOf[x].Some?
  {
    if op[x] == X(0) then 0 else val[valOf[First(op, valOf, x)].value]
  }

  ghost predicate Repaired(op: seq<Reg>, valOf: seq<Option<nat>>, before: seq<int>, after: seq<int>)
    requires |op| == |valOf| && Places(valOf, |before|)
  {
    && |after| == |before|
    && (forall x | 0 <= x < |op| && valOf[x].Some? :: after[valOf[x].value] == Target(op, valOf, before, x))
    && (forall k | 0 <= k < |before| && Some(k) !in valOf :: after[k] == before[k])
  }

  /** One register file could hold these values: x0 holds 0, and each register one value. */
  ghost predicate Consistent(op: seq<Reg>, valOf: seq<Option<nat>>, val: seq<int>)
    requires |op| == |valOf| && Places(valOf, |val|)
  {
    && (forall x | 0 <= x < |op| && valOf[x].Some? && op[x] == X(0) :: val[valOf[x].value] == 0)
    && (forall x, y | 0 <= x < y < |op| && valOf[x].Some? && valOf[y].Some? && op[x] == op[y] ::
          val[valOf[x].value] == val[valOf[y].value])
  }

  lemma {:induction false} RepairedConsistent(op: seq<Reg>, valOf: seq<Option<nat>>, before: seq<int>, after: seq<int>)
    requires |op| == |valOf| && Places(valOf, |before|) && Repaired(op, valOf, before, after)
    ensures Consistent(op, valOf, after)
    ensures Consistent(op, valOf, before) ==> after == before
  {
    forall x, y | 0 <= x < y < |op| && valOf[x].Some? && valOf[y].Some? && op[x] == op[y]
      ensures First(op, valOf, x) == First(op, valOf, y)
    {
    }
    if Consistent(op, valOf, before) {
      forall k | 0 <= k < |before| ensures after[k] == before[k] {
        if Some(k) in valOf {
          var x :| 0 <= x < |valOf| && valOf[x] == Some(k);
          var f := First(op, valOf, x);
          assert f < x ==> before[valOf[f].value] == before[k];
        }
      }
    }
  }

  /** How far the repair has come: operands whose register first occurs before i have their target. */
  ghost predicate Halfway(op: seq<Reg>, valOf: seq<Option<nat>>, before: seq<int>, now: seq<int>, i: nat)
    requires |op| == |valOf| && Places(valOf, |before|) && |now| == |before|
  {
    && (forall x | 0 <= x < |op| && valOf[x].Some? ::
          now[valOf[x].value] == if First(op, valOf, x) < i then Target(op, valOf, before, x)
              else before[valOf[x].value])
    && (forall k | 0 <= k < |before| && Some(k) !in valOf :: now[k] == before[k])
  }

  /** As halfway, with the copies of operand i's value made up to operand y. */
  ghost predicate Copying(op: seq<Reg>, valOf: seq<Option<nat>>, before: seq<int>, now: seq<int>, i: nat, y: nat)
    requires |op| == |valOf| && Places(valOf, |before|) && |now| == |before| && i < |op|
  {
    && (forall x | 0 <= x < |op| && valOf[x].Some? ::
          now[valOf[x].value] == if First(op, valOf, x) < i || (First(op, valOf, x) == i && x < y)
              then Target(op, valOf, before, x)
                                 else if x == i && op[x] == X(0) then 0 else before[valOf[x].value])
    && (forall k | 0 <= k < |before| && Some(k) !in valOf :: now[k] == before[k])
  }

  lemma {:induction false} SameFirst(op: seq<Reg>, valOf: seq<Option<nat>>, x: nat, y: nat)
    requires x < |op| == |valOf| && y < |op| && valOf[x].Some? && valOf[y].Some? && op[x] == op[y]
    ensures First(op, valOf, x) == First(op, valOf, y)
  {
  }

  /** One value replaced: every other operand's stays, for no two share a place. */
  lemma {:induction false} OtherPlaces(valOf: seq<Option<nat>>, now: seq<int>, y: nat, v: int)
    requires Places(valOf, |now|) && y < |valOf| && valOf[y].Some?
    ensures var now' := now[valOf[y].value := v];
            && now'[valOf[y].value] == v
            && (forall x | 0 <= x < |valOf| && valOf[x].Some? && x != y :: now'[valOf[x].value] == now[valOf[x].value])
            && (forall k | 0 <= k < |now| && Some(k) !in valOf :: now'[k] == now[k])
  {
    forall x | 0 <= x < |valOf| && valOf[x].Some? && x != y ensures valOf[x] != valOf[y] {
      if x < y { assert valOf[x] != valOf[y]; }
    }
    assert valOf[y] in valOf;
  }

  /** Operand y is not copied to: it has no value, or its register first occurs elsewhere. */
  lemma {:induction false} CopySkip(op: seq<Reg>, valOf: seq<Option<nat>>, before: seq<int>, now: seq<int>, i: nat,
                                    y: nat)
    requires |op| == |valOf| && Places(valOf, |before|) && |now| == |before| && i <= y < |op| && valOf[i].Some?
    requires Copying(op, valOf, before, now, i, y) && !(valOf[y].Some? && op[y] == op[i])
    ensures Copying(op, valOf, before, now, i, y + 1)
  {
    assert valOf[y].Some? ==> First(op, valOf, y) != i;
  }

  lemma {:induction false} CopyStep(op: seq<Reg>, valOf: seq<Option<nat>>, before: seq<int>, now: seq<int>, i: nat,
                                    y: nat)
    requires |op| == |valOf| && Places(valOf, |before|) && |now| == |before| && i <= y < |op| && valOf[i].Some?
    requires Copying(op, valOf, before, now, i, y) && valOf[y].Some? && op[y] == op[i]
    ensures Copying(op, valOf, before, now[valOf[y].value := now[valOf[i].value]], i, y + 1)
  {
    SameFirst(op, valOf, i, y);
    assert now[valOf[i].value] == Target(op, valOf, before, y);
    OtherPlaces(valOf, now, y, now[valOf[i].value]);
  }

  lemma {:induction false} CopyStart(op: seq<Reg>, valOf: seq<Option<nat>>, before: seq<int>, now: seq<int>, i: nat)
    requires |op| == |valOf| && Places(valOf, |before|) && |now| == |before| && i < |op| && valOf[i].Some?
    requires Halfway(op, valOf, before, now, i)
    ensures Copying(op, valOf, before, if op[i] == X(0) then now[valOf[i].value := 0] else now, i, i)
  {
  }

  lemma {:induction false} CopyEnd(op: seq<Reg>, valOf: seq<Option<nat>>, before: seq<int>, now: seq<int>, i: nat)
    requires |op| == |valOf| && Places(valOf, |before|) && |now| == |before| && i < |op| && valOf[i].Some?
    requires Copying(op, valOf, before, now, i, |op|)
    ensures Halfway(op, valOf, before, now, i + 1)
  {
  }

  /** The inner loop: operand i's value goes to every operand from i on that is the same register. */
  method CopyValue(op: seq<Reg>, valOf: seq<Option<nat>>, val: array<int>, i: nat, ghost before: seq<int>)
    requires |op| == |valOf| && Places(valOf, val.Length) && i < |op| && valOf[i].Some? && |before| == val.Length
    requires Copying(op, valOf, before, val[..], i, i)
    modifies val
    ensures Copying(op, valOf, before, val[..], i, |op|)
  {
    for y := i to |op|
      invariant Copying(op, valOf, before, val[..], i, y)
    {
      ghost var now := val[..];
      if valOf[y].Some? && op[y] == op[i] {
        CopyStep(op, valOf, before, now, i, y);
        val[valOf[y].value] := val[valOf[i].value];
        assert val[..] == now[valOf[y].value := now[valOf[i].value]];
      } else {
        CopySkip(op, valOf, before, now, i, y);
      }
    }
  }

  method RepairAliases(op: seq<Reg>, valOf: seq<Option<nat>>, val: array<int>)
    requires |op| == |valOf| && Places(valOf, val.Length)
    modifies val
    ensures Repaired(op, valOf, old(val[..]), val[..])
  {
    ghost var before := val[..];
    for i := 0 to |op|
      invariant Halfway(op, valOf, before, val[..], i)
    {
      if valOf[i].Some? {
        ghost var now := val[..];
        CopyStart(op, valOf, before, now, i);
        if op[i] == X(0) {
          val[valOf[i].value] := 0;
          assert val[..] == now[valOf[i].value := 0];
        }
        CopyValue(op, valOf, val, i, before);
        CopyEnd(op, valOf, before, val[..], i);
      } else {
        assert forall x | 0 <= x < |op| && valOf[x].Some? :: First(op, valOf, x) != i;
      }
    }
  }

  // ---------------------------------------------------------------------
  // Candidates
  // ---------------------------------------------------------------------

  datatype Candidate = Candidate(regs: seq<Reg>, values: seq<int>)

  /** No x0, and no register twice. */
  ghost predicate Clean(op: seq<Reg>) {
    X(0) !in op && OperandSearch.AllDifferent(op)
  }

  function NotX0(domains: seq<seq<Reg>>): (r: seq<Option<set<Reg>>>) {
    seq(|domains|, v requires 0 <= v < |domains| => Some((set x | x in domains[v]) - {X(0)}))
  }

  /** `get_default_registers`: operands that are different and none of them x0, or none. */
  method DefaultRegisters(domains: seq<seq<Reg>>, cs: OperandSearch.Conditions,
                          solver: OperandSearch.Problem -> Option<seq<Reg>>)
    returns (r: Option<seq<Reg>>)
    requires OperandSearch.Oracle(solver, cs)
    ensures r.Some? ==>
              Clean(r.value) && |r.value| == |domains| && forall v | 0 <= v < |domains| :: r.value[v] in domains[v]
    ensures r.None? ==>
              forall t: seq<Reg> | |t| == |domains| && Clean(t) :: exists v :: 0 <= v < |domains| && t[v] !in domains[v]
  {
    var p := OperandSearch.Problem(domains, NotX0(domains), None, true);
    r := None;
    var count := 0;
    while r.None? && count < 5
      invariant count == 0 ==> r.None?
      invariant count > 0 ==> r == solver(p) && (r.Some? ==> count == 1)
      decreases 5 - count
    {
      r := solver(p);
      count := count + 1;
    }
    if count == 5 {
      r := None;
    }
    assert solver(p) == r;
    if r.Some? {
      assert OperandSearch.Solves(p, r.value, cs);
      forall v | 0 <= v < |domains| ensures r.value[v] != X(0) {
        assert p.allowed[v].Some?;
      }
    } else {
      forall t: seq<Reg> | |t| == |domains| && Clean(t) ensures exists v :: 0 <= v < |domains| && t[v] !in domains[v] {
        assert !OperandSearch.Solves(p, t, cs);
        assert forall v | 0 <= v < |t| :: t[v] in t;
      }
    }
  }

  predicate Aliased(op: seq<Reg>)
    ensures Aliased(op) <==> !Clean(op)
  {
    X(0) in op || exists i, j :: 0 <= i < j < |op| && op[i] == op[j]
  }

  /**
    The registers the k-th value tuple is used with unrepaired: its own operand
    tuple if that is clean, else the defaults.
   */
  function UsedWith(ops: seq<seq<Reg>>, defaults: seq<Reg>, k: nat): (r: seq<Reg>)
    ensures Clean(defaults) ==> Clean(r)
  {
    if k < |ops| && !Aliased(ops[k]) then ops[k] else defaults
  }

  ghost predicate OperandsUsed(cands: seq<Candidate>, op: seq<Reg>) {
    exists j :: 0 <= j < |cands| && cands[j].regs == op
  }

  ghost predicate WellFormed(c: Candidate, valOf: seq<Option<nat>>, n: nat)
    requires Places(valOf, n)
  {
    |c.regs| == |valOf| && |c.values| == n && Consistent(c.regs, valOf, c.values)
  }

  lemma {:induction false} CleanConsistent(op: seq<Reg>, valOf: seq<Option<nat>>, val: seq<int>)
    requires |op| == |valOf| && Places(valOf, |val|) && Clean(op)
    ensures Consistent(op, valOf, val)
  {
  }

  lemma {:induction false} UsedStays(cands: seq<Candidate>, c: Candidate)
    ensures forall op :: OperandsUsed(cands, op) ==> OperandsUsed(cands + [c], op)
    ensures OperandsUsed(cands + [c], c.regs)
  {
    var more := cands + [c];
    assert more[|cands|] == c;
    forall op | OperandsUsed(cands, op) ensures OperandsUsed(more, op) {
      var j :| 0 <= j < |cands| && cands[j].regs == op;
      assert more[j] == cands[j];
    }
  }

  /** One pair of tuples; a list that has run out stands for the default registers or the first dataset values. */
  method Combine(op: Option<seq<Reg>>, val: seq<int>, valOf: seq<Option<nat>>, defaults: seq<Reg>)
    returns (c: Candidate, again: bool)
    requires Places(valOf, |val|) && |defaults| == |valOf| && Clean(defaults) && (op.Some? ==> |op.value| == |valOf|)
    ensures c.regs == if op.Some? then op.value else defaults
    ensures WellFormed(c, valOf, |val|)
    ensures !again ==> c.values == val
    ensures again <==> op.Some? && Aliased(op.value)
    ensures again ==> Repaired(op.value, valOf, val, c.values)
  {
    if op.None? || !Aliased(op.value) {
      c, again := Candidate(if op.Some? then op.value else defaults, val), false;
      CleanConsistent(c.regs, valOf, val);
    } else {
      var a := new int[|val|](i requires 0 <= i < |val| => val[i]);
      assert a[..] == val;
      RepairAliases(op.value, valOf, a);
      RepairedConsistent(op.value, valOf, val, a[..]);
      c, again := Candidate(op.value, a[..]), true;
    }
  }

  ghost predicate AllWellFormed(cands: seq<Candidate>, valOf: seq<Option<nat>>, n: nat)
    requires Places(valOf, n)
  {
    forall j | 0 <= j < |cands| :: WellFormed(cands[j], valOf, n)
  }

  /** The first k tuples of each list have their candidates, but for values still to be repeated with the defaults. */
  ghost predicate Served(cands: seq<Candidate>, ops: seq<seq<Reg>>, vals: seq<seq<int>>, defaults: seq<Reg>, k: nat,
                         cont: seq<seq<int>>) {
    && (forall i | 0 <= i < k && i < |vals| :: ServedAt(cands, ops, vals, defaults, i, cont))
    && (forall i | 0 <= i < k && i < |ops| :: OperandsUsed(cands, ops[i]))
  }

  ghost predicate ServedAt(cands: seq<Candidate>, ops: seq<seq<Reg>>, vals: seq<seq<int>>, defaults: seq<Reg>, i: nat,
                           cont: seq<seq<int>>)
    requires i < |vals|
  {
    || Candidate(UsedWith(ops, defaults, i), vals[i]) in cands
    || (UsedWith(ops, defaults, i) == defaults && vals[i] in cont)
  }

  lemma {:induction false} ServedMore(cands: seq<Candidate>, ops: seq<seq<Reg>>, vals: seq<seq<int>>,
                                      defaults: seq<Reg>, k: nat, cont: seq<seq<int>>, c: Candidate, again: bool,
                                      val: seq<int>)
    requires Served(cands, ops, vals, defaults, k, cont)
    requires k < |vals| ==> val == vals[k]
    requires c.regs == if k < |ops| then ops[k] else defaults
    requires (again <==> k < |ops| && Aliased(ops[k])) && (!again ==> c.values == val)
    ensures Served(cands + [c], ops, vals, defaults, k + 1, if again then cont + [val] else cont)
  {
    UsedStays(cands, c);
    var cont' := if again then cont + [val] else cont;
    forall i | 0 <= i < k + 1 && i < |vals| ensures ServedAt(cands + [c], ops, vals, defaults, i, cont') {
      if i < k {
        assert ServedAt(cands, ops, vals, defaults, i, cont);
      }
    }
  }

  lemma {:induction false} ServedAgain(cands: seq<Candidate>, ops: seq<seq<Reg>>, vals: seq<seq<int>>,
                                       defaults: seq<Reg>, n: nat, cont: seq<seq<int>>)
    requires cont != [] && Served(cands, ops, vals, defaults, n, cont)
    ensures Served(cands + [Candidate(defaults, cont[0])], ops, vals, defaults, n, cont[1..])
  {
    var c := Candidate(defaults, cont[0]);
    UsedStays(cands, c);
    forall i | 0 <= i < n && i < |vals| ensures ServedAt(cands + [c], ops, vals, defaults, i, cont[1..]) {
      assert ServedAt(cands, ops, vals, defaults, i, cont);
    }
  }

  /** The k-th value tuple, or the first dataset values. */
  function ValuesAt(vals: seq<seq<int>>, first: seq<int>, k: nat): seq<int> {
    if k < |vals| then vals[k] else first
  }

  predicate RepeatsAt(ops: seq<seq<Reg>>, k: nat) {
    k < |ops| && Aliased(ops[k])
  }

  /** The values to be repeated after k pairs of tuples: those of aliased combinations, in their order. */
  function Repeats(ops: seq<seq<Reg>>, vals: seq<seq<int>>, first: seq<int>, k: nat): seq<seq<int>> {
    if k == 0 then []
    else
      Repeats(ops, vals, first, k - 1)
      + if RepeatsAt(ops, k - 1) then [ValuesAt(vals, first, k - 1)] else []
  }

  /** What the k-th pair of tuples becomes: the values as they are, or repaired if the registers are aliased. */
  ghost predicate PairedAs(c: Candidate, ops: seq<seq<Reg>>, vals: seq<seq<int>>, valOf: seq<Option<nat>>,
                           defaults: seq<Reg>, first: seq<int>, k: nat)
    requires Places(valOf, |first|) && forall j | 0 <= j < |ops| :: |ops[j]| == |valOf|
    requires forall j | 0 <= j < |vals| :: |vals[j]| == |first|
  {
    if RepeatsAt(ops, k) then
      c.regs == ops[k] && Repaired(ops[k], valOf, ValuesAt(vals, first, k), c.values)
    else c == Candidate(if k < |ops| then ops[k] else defaults, ValuesAt(vals, first, k))
  }

  ghost predicate Paired(cands: seq<Candidate>, ops: seq<seq<Reg>>, vals: seq<seq<int>>, valOf: seq<Option<nat>>,
                         defaults: seq<Reg>, first: seq<int>)
    requires Places(valOf, |first|) && forall j | 0 <= j < |ops| :: |ops[j]| == |valOf|
    requires forall j | 0 <= j < |vals| :: |vals[j]| == |first|
  {
    forall k: nat | k < |cands| :: PairedAs(cands[k], ops, vals, valOf, defaults, first, k)
  }

  lemma {:induction false} PairedMore(cands: seq<Candidate>, c: Candidate, ops: seq<seq<Reg>>, vals: seq<seq<int>>,
                                      valOf: seq<Option<nat>>, defaults: seq<Reg>, first: seq<int>)
    requires Places(valOf, |first|) && forall j | 0 <= j < |ops| :: |ops[j]| == |valOf|
    requires forall j | 0 <= j < |vals| :: |vals[j]| == |first|
    requires Paired(cands, ops, vals, valOf, defaults, first)
    requires PairedAs(c, ops, vals, valOf, defaults, first, |cands|)
    ensures Paired(cands + [c], ops, vals, valOf, defaults, first)
  {
  }

  lemma {:induction false} RepeatsNext(ops: seq<seq<Reg>>, vals: seq<seq<int>>, first: seq<int>, k: nat)
    ensures Repeats(ops, vals, first, k + 1)
         == if RepeatsAt(ops, k) then Repeats(ops, vals, first, k) + [ValuesAt(vals, first, k)]
            else Repeats(ops, vals, first, k)
  {
  }

  function WithDefaults(defaults: seq<Reg>, vals: seq<seq<int>>): seq<Candidate> {
    seq(|vals|, k requires 0 <= k < |vals| => Candidate(defaults, vals[k]))
  }

  /** The whole list: one candidate for each of the n pairs, then the repeats with the default registers. */
  ghost predicate Laid(cands: seq<Candidate>, ops: seq<seq<Reg>>, vals: seq<seq<int>>, valOf: seq<Option<nat>>,
                       defaults: seq<Reg>, first: seq<int>, n: nat)
    requires Places(valOf, |first|) && forall j | 0 <= j < |ops| :: |ops[j]| == |valOf|
    requires forall j | 0 <= j < |vals| :: |vals[j]| == |first|
  {
    n <= |cands| && Paired(cands[..n], ops, vals, valOf, defaults, first)
    && cands[n..] == WithDefaults(defaults, Repeats(ops, vals, first, n))
  }

  /** The k-th pair: whether it is to be repeated, and what it becomes. */
  ghost predicate CombinedFrom(c: Candidate, again: bool, ops: seq<seq<Reg>>, vals: seq<seq<int>>,
                               valOf: seq<Option<nat>>, defaults: seq<Reg>, first: seq<int>, k: nat)
    requires Places(valOf, |first|) && forall j | 0 <= j < |ops| :: |ops[j]| == |valOf|
    requires forall j | 0 <= j < |vals| :: |vals[j]| == |first|
  {
    && WellFormed(c, valOf, |first|) && PairedAs(c, ops, vals, valOf, defaults, first, k)
    && again == RepeatsAt(ops, k)
  }

  /** After k pairs: each has its candidate, and what is to be repeated is in cont. */
  ghost predicate PairsDone(cands: seq<Candidate>, cont: seq<seq<int>>, ops: seq<seq<Reg>>, vals: seq<seq<int>>,
                            valOf: seq<Option<nat>>, defaults: seq<Reg>, first: seq<int>, k: nat)
    requires Places(valOf, |first|) && forall j | 0 <= j < |ops| :: |ops[j]| == |valOf|
    requires forall j | 0 <= j < |vals| :: |vals[j]| == |first|
  {
    PairsLaid(cands, cont, ops, vals, valOf, defaults, first, k)
    && PairsServed(cands, cont, ops, vals, valOf, defaults, |first|, k)
  }

  ghost predicate PairsLaid(cands: seq<Candidate>, cont: seq<seq<int>>, ops: seq<seq<Reg>>, vals: seq<seq<int>>,
                            valOf: seq<Option<nat>>, defaults: seq<Reg>, first: seq<int>, k: nat)
    requires Places(valOf, |first|) && forall j | 0 <= j < |ops| :: |ops[j]| == |valOf|
    requires forall j | 0 <= j < |vals| :: |vals[j]| == |first|
  {
    |cands| == k && cont == Repeats(ops, vals, first, k) && Paired(cands, ops, vals, valOf, defaults, first)
  }

  ghost predicate PairsServed(cands: seq<Candidate>, cont: seq<seq<int>>, ops: seq<seq<Reg>>, vals: seq<seq<int>>,
                              valOf: seq<Option<nat>>, defaults: seq<Reg>, size: nat, k: nat)
    requires Places(valOf, size)
  {
    && Served(cands, ops, vals, defaults, k, cont) && AllWellFormed(cands, valOf, size)
    && forall v | v in cont :: |v| == size
  }

  lemma {:induction false} PairsNext(cands: seq<Candidate>, cont: seq<seq<int>>, c: Candidate, again: bool,
                                     ops: seq<seq<Reg>>, vals: seq<seq<int>>, valOf: seq<Option<nat>>,
                                     defaults: seq<Reg>, first: seq<int>, k: nat)
    requires Places(valOf, |first|) && forall j | 0 <= j < |ops| :: |ops[j]| == |valOf|
    requires forall j | 0 <= j < |vals| :: |vals[j]| == |first|
    requires PairsDone(cands, cont, ops, vals, valOf, defaults, first, k)
    requires CombinedFrom(c, again, ops, vals, valOf, defaults, first, k)
    ensures PairsDone(cands + [c], if again then cont + [ValuesAt(vals, first, k)] else cont,
                      ops, vals, valOf, defaults, first, k + 1)
  {
    ServedMore(cands, ops, vals, defaults, k, cont, c, again, ValuesAt(vals, first, k));
    PairedMore(cands, c, ops, vals, valOf, defaults, first);
    RepeatsNext(ops, vals, first, k);
  }

  /** One turn of the loop over both lists. */
  method PairAt(ops: seq<seq<Reg>>, vals: seq<seq<int>>, valOf: seq<Option<nat>>, defaults: seq<Reg>, first: seq<int>,
                k: nat)
    returns (c: Candidate, again: bool)
    requires Places(valOf, |first|) && |defaults| == |valOf| && Clean(defaults)
    requires (forall j | 0 <= j < |ops| :: |ops[j]| == |valOf|) && forall j | 0 <= j < |vals| :: |vals[j]| == |first|
    ensures CombinedFrom(c, again, ops, vals, valOf, defaults, first, k)
  {
    c, again := Combine(if k < |ops| then Some(ops[k]) else None, ValuesAt(vals, first, k), valOf, defaults);
  }

  /** The loop over both lists; what comes back in cont is to be repeated with default registers. */
  method Pair(ops: seq<seq<Reg>>, vals: seq<seq<int>>, valOf: seq<Option<nat>>, defaults: seq<Reg>, first: seq<int>,
              n: nat)
    returns (cands: seq<Candidate>, cont: seq<seq<int>>)
    requires Places(valOf, |first|) && |defaults| == |valOf| && Clean(defaults)
    requires (forall k | 0 <= k < |ops| :: |ops[k]| == |valOf|) && forall k | 0 <= k < |vals| :: |vals[k]| == |first|
    ensures PairsDone(cands, cont, ops, vals, valOf, defaults, first, n)
  {
    cands, cont := [], [];
    for k := 0 to n
      invariant PairsDone(cands, cont, ops, vals, valOf, defaults, first, k)
    {
      var c, again := PairAt(ops, vals, valOf, defaults, first, k);
      PairsNext(cands, cont, c, again, ops, vals, valOf, defaults, first, k);
      if again {
        cont := cont + [ValuesAt(vals, first, k)];
      }
      cands := cands + [c];
    }
  }

  /** The loop over the values to be repeated. */
  method Repeat(front: seq<Candidate>, cont: seq<seq<int>>, valOf: seq<Option<nat>>, defaults: seq<Reg>,
                ghost ops: seq<seq<Reg>>, ghost vals: seq<seq<int>>, ghost n: nat, ghost size: nat)
    returns (cands: seq<Candidate>)
    requires Places(valOf, size) && |defaults| == |valOf| && Clean(defaults) && forall v | v in cont :: |v| == size
    requires Served(front, ops, vals, defaults, n, cont) && AllWellFormed(front, valOf, size)
    ensures Served(cands, ops, vals, defaults, n, []) && AllWellFormed(cands, valOf, size)
    ensures cands == front + WithDefaults(defaults, cont)
  {
    cands := front;
    for k := 0 to |cont|
      invariant Served(cands, ops, vals, defaults, n, cont[k..]) && AllWellFormed(cands, valOf, size)
      invariant cands == front + WithDefaults(defaults, cont[..k])
    {
      CleanConsistent(defaults, valOf, cont[k]);
      assert cont[k..][1..] == cont[k + 1..];
      ServedAgain(cands, ops, vals, defaults, n, cont[k..]);
      var c := Candidate(defaults, cont[k]);
      assert WithDefaults(defaults, cont[..k + 1]) == WithDefaults(defaults, cont[..k]) + [c];
      cands := cands + [c];
    }
    assert cont[..|cont|] == cont;
  }

  lemma {:induction false} AllServed(cands: seq<Candidate>, ops: seq<seq<Reg>>, vals: seq<seq<int>>,
                                     defaults: seq<Reg>, n: nat)
    requires Served(cands, ops, vals, defaults, n, []) && |ops| <= n && |vals| <= n
    ensures forall k: nat | k < |vals| :: Candidate(UsedWith(ops, defaults, k), vals[k]) in cands
    ensures forall k | 0 <= k < |ops| :: OperandsUsed(cands, ops[k])
  {
    forall k: nat | k < |vals| ensures Candidate(UsedWith(ops, defaults, k), vals[k]) in cands {
      assert ServedAt(cands, ops, vals, defaults, k, []);
    }
  }

  /**
    Every value tuple gets a candidate that uses it as it is, with clean registers;
    every operand tuple gets a candidate; and each candidate's values fit one
    register file.
   */
  method Candidates(ops: seq<seq<Reg>>, vals: seq<seq<int>>, valOf: seq<Option<nat>>, defaults: seq<Reg>,
                    first: seq<int>)
    returns (cands: seq<Candidate>)
    requires Places(valOf, |first|) && |defaults| == |valOf| && Clean(defaults)
    requires (forall k | 0 <= k < |ops| :: |ops[k]| == |valOf|) && forall k | 0 <= k < |vals| :: |vals[k]| == |first|
    ensures forall k: nat | k < |vals| :: Candidate(UsedWith(ops, defaults, k), vals[k]) in cands
    ensures forall k | 0 <= k < |ops| :: OperandsUsed(cands, ops[k])
    ensures AllWellFormed(cands, valOf, |first|)
    ensures Laid(cands, ops, vals, valOf, defaults, first, if |ops| < |vals| then |vals| else |ops|)
  {
    var n := if |ops| < |vals| then |vals| else |ops|;
    var cont;
    cands, cont := Pair(ops, vals, valOf, defaults, first, n);
    var front := cands;
    cands := Repeat(front, cont, valOf, defaults, ops, vals, n, |first|);
    AllServed(cands, ops, vals, defaults, n);
    assert cands[..n] == front;
  }
}
