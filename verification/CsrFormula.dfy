/**
  The boolean expressions of riscv_ctg/csr_comb.py and their `SAT` methods.

  `SAT` enumerates pairs of literal lists: those that must hold and those that
  must not.  Which valuations it enumerates is characterised without lists by
  `Listed`, and then decided from the shape of the formula alone.
 */
module CsrFormula {

  datatype Formula<C> =
    | Literal(clause: C)
    | Not(operand: Formula<C>)
    | And(lhs: Formula<C>, rhs: Formula<C>)
    | Or(lhs: Formula<C>, rhs: Formula<C>)

  /** Literals that must evaluate to true, and literals that must evaluate to false. */
  datatype Solution<C> = Solution(trues: seq<C>, falses: seq<C>)

  function Flip<C>(s: Solution<C>): Solution<C> {
    Solution(s.falses, s.trues)
  }

  function Join<C>(a: Solution<C>, b: Solution<C>): Solution<C> {
    Solution(a.trues + b.trues, a.falses + b.falses)
  }

  function FlipAll<C>(ss: seq<Solution<C>>): (r: seq<Solution<C>>)
    ensures |r| == |ss| && forall i | 0 <= i < |ss| :: r[i] == Flip(ss[i])
  {
    seq(|ss|, i requires 0 <= i < |ss| => Flip(ss[i]))
  }

  /** One left solution joined with every right one, as `and` and as `or` do it. */
  function AndRow<C>(l: Solution<C>, rs: seq<Solution<C>>): seq<Solution<C>> {
    if rs == [] then [] else [Join(l, rs[0])] + AndRow(l, rs[1..])
  }

  function OrTriple<C>(l: Solution<C>, r: Solution<C>): seq<Solution<C>> {
    [Join(l, Flip(r)), Join(Flip(l), r), Join(l, r)]
  }

  function OrRow<C>(l: Solution<C>, rs: seq<Solution<C>>): seq<Solution<C>> {
    if rs == [] then [] else OrTriple(l, rs[0]) + OrRow(l, rs[1..])
  }

  function AndAll<C>(ls: seq<Solution<C>>, rs: seq<Solution<C>>): seq<Solution<C>> {
    if ls == [] then [] else AndRow(ls[0], rs) + AndAll(ls[1..], rs)
  }

  function OrAll<C>(ls: seq<Solution<C>>, rs: seq<Solution<C>>): seq<Solution<C>> {
    if ls == [] then [] else OrRow(ls[0], rs) + OrAll(ls[1..], rs)
  }

  function Sat<C>(e: Formula<C>): seq<Solution<C>> {
    match e
    case Literal(c) => [Solution([c], [])]
    case Not(x) => FlipAll(Sat(x))
    case And(l, r) => AndAll(Sat(l), Sat(r))
    case Or(l, r) => OrAll(Sat(l), Sat(r))
  }

  predicate Eval<C(==)>(e: Formula<C>, a: set<C>) {
    match e
    case Literal(c) => c in a
    case Not(x) => !Eval(x, a)
    case And(l, r) => Eval(l, a) && Eval(r, a)
    case Or(l, r) => Eval(l, a) || Eval(r, a)
  }

  function Clauses<C(==)>(e: Formula<C>): set<C> {
    match e
    case Literal(c) => {c}
    case Not(x) => Clauses(x)
    case And(l, r) => Clauses(l) + Clauses(r)
    case Or(l, r) => Clauses(l) + Clauses(r)
  }

  /** No clause occurs twice. */
  ghost predicate Linear<C>(e: Formula<C>) {
    match e
    case Literal(c) => true
    case Not(x) => Linear(x)
    case And(l, r) => Linear(l) && Linear(r) && Clauses(l) !! Clauses(r)
    case Or(l, r) => Linear(l) && Linear(r) && Clauses(l) !! Clauses(r)
  }

  // ---------------------------------------------------------------------
  // The loops of OrExpression.SAT
  // ---------------------------------------------------------------------

  lemma {:induction false} OrRowSnoc<C>(l: Solution<C>, rs: seq<Solution<C>>, r: Solution<C>)
    ensures OrRow(l, rs + [r]) == OrRow(l, rs) + OrTriple(l, r)
  {
    if rs == [] {
      assert [r][1..] == [];
    } else {
      assert (rs + [r])[1..] == rs[1..] + [r];
      OrRowSnoc(l, rs[1..], r);
    }
  }

  lemma {:induction false} OrAllSnoc<C>(ls: seq<Solution<C>>, l: Solution<C>, rs: seq<Solution<C>>)
    ensures OrAll(ls + [l], rs) == OrAll(ls, rs) + OrRow(l, rs)
  {
    if ls == [] {
      assert [l][1..] == [];
    } else {
      assert (ls + [l])[1..] == ls[1..] + [l];
      OrAllSnoc(ls[1..], l, rs);
    }
  }

  method OrSat<C>(ls: seq<Solution<C>>, rs: seq<Solution<C>>) returns (sols: seq<Solution<C>>)
    ensures sols == OrAll(ls, rs)
  {
    sols := [];
    for i := 0 to |ls|
      invariant sols == OrAll(ls[..i], rs)
    {
      ghost var before := sols;
      for j := 0 to |rs|
        invariant sols == before + OrRow(ls[i], rs[..j])
      {
        var three := [Join(ls[i], Flip(rs[j])), Join(Flip(ls[i]), rs[j]), Join(ls[i], rs[j])];
        assert rs[..j + 1] == rs[..j] + [rs[j]];
        OrRowSnoc(ls[i], rs[..j], rs[j]);
        assert before + OrRow(ls[i], rs[..j + 1]) == sols + three;
        sols := sols + three;
      }
      assert rs[..|rs|] == rs;
      assert ls[..i + 1] == ls[..i] + [ls[i]];
      OrAllSnoc(ls[..i], ls[i], rs);
    }
    assert ls[..|ls|] == ls;
  }

  method SatList<C>(e: Formula<C>) returns (sols: seq<Solution<C>>)
    ensures sols == Sat(e)
  {
    match e
    case Literal(c) =>
      sols := [Solution([c], [])];
    case Not(x) =>
      var inner := SatList(x);
      sols := FlipAll(inner);
    case And(l, r) =>
      var ls := SatList(l);
      var rs := SatList(r);
      sols := AndAll(ls, rs);
    case Or(l, r) =>
      var ls := SatList(l);
      var rs := SatList(r);
      sols := OrSat(ls, rs);
  }

  // ---------------------------------------------------------------------
  // How many solutions, and what is in each
  // ---------------------------------------------------------------------

  function Pow3(n: nat): nat {
    if n == 0 then 1 else 3 * Pow3(n - 1)
  }

  function Ors<C>(e: Formula<C>): nat {
    match e
    case Literal(_) => 0
    case Not(x) => Ors(x)
    case And(l, r) => Ors(l) + Ors(r)
    case Or(l, r) => 1 + Ors(l) + Ors(r)
  }

  lemma {:induction false} Pow3Add(a: nat, b: nat)
    ensures Pow3(a + b) == Pow3(a) * Pow3(b)
    decreases a
  {
    if a != 0 {
      Pow3Add(a - 1, b);
    }
  }

  lemma {:induction false} RowSize<C>(l: Solution<C>, rs: seq<Solution<C>>)
    ensures |AndRow(l, rs)| == |rs| && |OrRow(l, rs)| == 3 * |rs|
  {
    if rs != [] { RowSize(l, rs[1..]); }
  }

  lemma {:induction false} AllSize<C>(ls: seq<Solution<C>>, rs: seq<Solution<C>>)
    ensures |AndAll(ls, rs)| == |ls| * |rs| && |OrAll(ls, rs)| == 3 * (|ls| * |rs|)
  {
    if ls != [] {
      RowSize(ls[0], rs);
      AllSize(ls[1..], rs);
    }
  }

  /** SAT returns exactly 3^(number of ors) solutions, repetitions included. */
  lemma {:induction false} SatCount<C>(e: Formula<C>)
    ensures |Sat(e)| == Pow3(Ors(e))
  {
    match e
    case Literal(_) =>
    case Not(x) => SatCount(x);
    case And(l, r) =>
      SatCount(l); SatCount(r);
      AllSize(Sat(l), Sat(r));
      Pow3Add(Ors(l), Ors(r));
    case Or(l, r) =>
      SatCount(l); SatCount(r);
      AllSize(Sat(l), Sat(r));
      Pow3Add(Ors(l), Ors(r));
  }

  function Occurrences<C>(e: Formula<C>): multiset<C> {
    match e
    case Literal(c) => multiset{c}
    case Not(x) => Occurrences(x)
    case And(l, r) => Occurrences(l) + Occurrences(r)
    case Or(l, r) => Occurrences(l) + Occurrences(r)
  }

  ghost predicate Splits<C>(s: Solution<C>, m: multiset<C>) {
    multiset(s.trues) + multiset(s.falses) == m
  }

  lemma {:induction false} RowSplits<C>(l: Solution<C>, rs: seq<Solution<C>>, ml: multiset<C>, mr: multiset<C>)
    requires Splits(l, ml) && forall r | r in rs :: Splits(r, mr)
    ensures forall s | s in AndRow(l, rs) :: Splits(s, ml + mr)
    ensures forall s | s in OrRow(l, rs) :: Splits(s, ml + mr)
  {
    if rs != [] {
      assert Splits(rs[0], mr);
      RowSplits(l, rs[1..], ml, mr);
    }
  }

  lemma {:induction false} AllSplits<C>(ls: seq<Solution<C>>, rs: seq<Solution<C>>, ml: multiset<C>, mr: multiset<C>)
    requires (forall l | l in ls :: Splits(l, ml)) && (forall r | r in rs :: Splits(r, mr))
    ensures forall s | s in AndAll(ls, rs) :: Splits(s, ml + mr)
    ensures forall s | s in OrAll(ls, rs) :: Splits(s, ml + mr)
  {
    if ls != [] {
      RowSplits(ls[0], rs, ml, mr);
      AllSplits(ls[1..], rs, ml, mr);
    }
  }

  /** Every solution places each literal occurrence in exactly one of its two lists. */
  lemma {:induction false} SatPartitions<C>(e: Formula<C>)
    ensures forall s | s in Sat(e) :: Splits(s, Occurrences(e))
  {
    match e
    case Literal(c) =>
      assert Splits(Solution([c], []), multiset{c});
    case Not(x) =>
      SatPartitions(x);
      forall s | s in Sat(e) ensures Splits(s, Occurrences(e)) {
        assert Splits(Flip(s), Occurrences(x)) by {
          var i :| 0 <= i < |Sat(e)| && Sat(e)[i] == s;
          assert Sat(x)[i] == Flip(s);
        }
      }
    case And(l, r) =>
      SatPartitions(l); SatPartitions(r);
      AllSplits(Sat(l), Sat(r), Occurrences(l), Occurrences(r));
    case Or(l, r) =>
      SatPartitions(l); SatPartitions(r);
      AllSplits(Sat(l), Sat(r), Occurrences(l), Occurrences(r));
  }

  // ---------------------------------------------------------------------
  // Which valuations are listed
  // ---------------------------------------------------------------------

  /** Valuation a (the set of clauses that hold) is the kind the solution asks for. */
  ghost predicate Matches<C>(s: Solution<C>, a: set<C>) {
    (forall c | c in s.trues :: c in a) && (forall c | c in s.falses :: c !in a)
  }

  /** With pos the solution itself, without it the solution with its lists exchanged. */
  function Orient<C>(s: Solution<C>, pos: bool): Solution<C> {
    if pos then s else Flip(s)
  }

  ghost predicate AnyMatch<C>(ss: seq<Solution<C>>, pos: bool, a: set<C>) {
    ss != [] && (Matches(Orient(ss[0], pos), a) || AnyMatch(ss[1..], pos, a))
  }

  /** The valuations that SAT's solutions describe, read off the formula. */
  predicate Listed<C(==)>(e: Formula<C>, pos: bool, a: set<C>) {
    match e
    case Literal(c) => (c in a) == pos
    case Not(x) => Listed(x, !pos, a)
    case And(l, r) => Listed(l, pos, a) && Listed(r, pos, a)
    case Or(l, r) =>
      || (Listed(l, pos, a) && Listed(r, !pos, a))
      || (Listed(l, !pos, a) && Listed(r, pos, a))
      || (Listed(l, pos, a) && Listed(r, pos, a))
  }

  lemma {:induction false} JoinMatches<C>(x: Solution<C>, y: Solution<C>, a: set<C>)
    ensures Matches(Join(x, y), a) == (Matches(x, a) && Matches(y, a))
  {
  }

  lemma {:induction false} AnyMatchAppend<C>(xs: seq<Solution<C>>, ys: seq<Solution<C>>, pos: bool, a: set<C>)
    ensures AnyMatch(xs + ys, pos, a) == (AnyMatch(xs, pos, a) || AnyMatch(ys, pos, a))
  {
    if xs == [] {
      assert xs + ys == ys;
    } else {
      assert (xs + ys)[1..] == xs[1..] + ys;
      AnyMatchAppend(xs[1..], ys, pos, a);
    }
  }

  lemma {:induction false} AnyMatchFlip<C>(ss: seq<Solution<C>>, pos: bool, a: set<C>)
    ensures AnyMatch(FlipAll(ss), pos, a) == AnyMatch(ss, !pos, a)
  {
    if ss != [] {
      assert FlipAll(ss)[1..] == FlipAll(ss[1..]);
      AnyMatchFlip(ss[1..], pos, a);
    }
  }

  lemma {:induction false} AnyMatchIff<C>(ss: seq<Solution<C>>, pos: bool, a: set<C>)
    ensures AnyMatch(ss, pos, a) <==> exists s :: s in ss && Matches(Orient(s, pos), a)
  {
    if ss != [] {
      AnyMatchIff(ss[1..], pos, a);
      assert forall s :: s in ss <==> s == ss[0] || s in ss[1..];
    }
  }

  lemma {:induction false} AnyMatchAndRow<C>(l: Solution<C>, rs: seq<Solution<C>>, pos: bool, a: set<C>)
    ensures AnyMatch(AndRow(l, rs), pos, a) == (Matches(Orient(l, pos), a) && AnyMatch(rs, pos, a))
  {
    if rs != [] {
      AnyMatchAndRow(l, rs[1..], pos, a);
      JoinMatches(Orient(l, pos), Orient(rs[0], pos), a);
      assert Orient(Join(l, rs[0]), pos) == Join(Orient(l, pos), Orient(rs[0], pos));
      assert AndRow(l, rs)[1..] == AndRow(l, rs[1..]);
    }
  }

  lemma {:induction false} AnyMatchAndAll<C>(ls: seq<Solution<C>>, rs: seq<Solution<C>>, pos: bool, a: set<C>)
    ensures AnyMatch(AndAll(ls, rs), pos, a) == (AnyMatch(ls, pos, a) && AnyMatch(rs, pos, a))
  {
    if ls != [] {
      AnyMatchAndRow(ls[0], rs, pos, a);
      AnyMatchAndAll(ls[1..], rs, pos, a);
      AnyMatchAppend(AndRow(ls[0], rs), AndAll(ls[1..], rs), pos, a);
    }
  }

  ghost predicate OrRule(lp: bool, lm: bool, rp: bool, rm: bool) {
    (lp && rm) || (lm && rp) || (lp && rp)
  }

  lemma {:induction false} AnyMatchTriple<C>(l: Solution<C>, r: Solution<C>, pos: bool, a: set<C>)
    ensures AnyMatch(OrTriple(l, r), pos, a)
         == OrRule(Matches(Orient(l, pos), a), Matches(Orient(l, !pos), a), Matches(Orient(r, pos), a),
             Matches(Orient(r, !pos), a))
  {
    var t := OrTriple(l, r);
    assert t[1..] == [t[1], t[2]] && t[1..][1..] == [t[2]] && [t[2]][1..] == [];
    assert AnyMatch([t[2]], pos, a) == Matches(Orient(t[2], pos), a);
    assert AnyMatch(t[1..], pos, a) == (Matches(Orient(t[1], pos), a) || Matches(Orient(t[2], pos), a));
    assert Orient(t[0], pos) == Join(Orient(l, pos), Orient(r, !pos));
    assert Orient(t[1], pos) == Join(Orient(l, !pos), Orient(r, pos));
    assert Orient(t[2], pos) == Join(Orient(l, pos), Orient(r, pos));
    JoinMatches(Orient(l, pos), Orient(r, !pos), a);
    JoinMatches(Orient(l, !pos), Orient(r, pos), a);
    JoinMatches(Orient(l, pos), Orient(r, pos), a);
  }

  lemma {:induction false} AnyMatchOrRow<C>(l: Solution<C>, rs: seq<Solution<C>>, pos: bool, a: set<C>)
    ensures AnyMatch(OrRow(l, rs), pos, a)
         == OrRule(Matches(Orient(l, pos), a), Matches(Orient(l, !pos), a), AnyMatch(rs, pos, a), AnyMatch(rs, !pos, a))
  {
    if rs != [] {
      AnyMatchOrRow(l, rs[1..], pos, a);
      AnyMatchTriple(l, rs[0], pos, a);
      AnyMatchAppend(OrTriple(l, rs[0]), OrRow(l, rs[1..]), pos, a);
    }
  }

  lemma {:induction false} AnyMatchOrAll<C>(ls: seq<Solution<C>>, rs: seq<Solution<C>>, pos: bool, a: set<C>)
    ensures AnyMatch(OrAll(ls, rs), pos, a)
         == OrRule(AnyMatch(ls, pos, a), AnyMatch(ls, !pos, a), AnyMatch(rs, pos, a), AnyMatch(rs, !pos, a))
  {
    if ls != [] {
      AnyMatchOrRow(ls[0], rs, pos, a);
      AnyMatchOrAll(ls[1..], rs, pos, a);
      AnyMatchAppend(OrRow(ls[0], rs), OrAll(ls[1..], rs), pos, a);
    }
  }

  lemma {:induction false} ListedIsAnyMatch<C>(e: Formula<C>, pos: bool, a: set<C>)
    ensures Listed(e, pos, a) == AnyMatch(Sat(e), pos, a)
    decreases e
  {
    match e
    case Literal(c) =>
      assert Sat(e)[1..] == [];
    case Not(x) =>
      ListedIsAnyMatch(x, !pos, a);
      AnyMatchFlip(Sat(x), pos, a);
    case And(l, r) =>
      ListedIsAnyMatch(l, pos, a); ListedIsAnyMatch(r, pos, a);
      AnyMatchAndAll(Sat(l), Sat(r), pos, a);
    case Or(l, r) =>
      ListedIsAnyMatch(l, pos, a); ListedIsAnyMatch(l, !pos, a);
      ListedIsAnyMatch(r, pos, a); ListedIsAnyMatch(r, !pos, a);
      AnyMatchOrAll(Sat(l), Sat(r), pos, a);
  }

  /** A valuation is listed exactly when some solution of SAT describes it. */
  lemma {:induction false} ListedIffSolution<C>(e: Formula<C>, pos: bool, a: set<C>)
    ensures Listed(e, pos, a) <==> exists s :: s in Sat(e) && Matches(Orient(s, pos), a)
  {
    ListedIsAnyMatch(e, pos, a);
    AnyMatchIff(Sat(e), pos, a);
  }

  // ---------------------------------------------------------------------
  // Soundness and completeness, decided from the shape of the formula
  // ---------------------------------------------------------------------

  /** Every valuation SAT describes (or, without pos, the flipped ones) gives the formula the value pos. */
  predicate SoundShape<C>(e: Formula<C>, pos: bool) {
    match e
    case Literal(_) => true
    case Not(x) => SoundShape(x, !pos)
    case And(l, r) =>
      if pos then SoundShape(l, true) && SoundShape(r, true) else SoundShape(l, false) || SoundShape(r, false)
    case Or(l, r) => pos && SoundShape(l, true) && SoundShape(r, true)
  }

  predicate AndFree<C>(e: Formula<C>) {
    match e
    case Literal(_) => true
    case Not(x) => AndFree(x)
    case And(_, _) => false
    case Or(l, r) => AndFree(l) && AndFree(r)
  }

  /** Every valuation that gives the formula the value pos is described, one way round or the other. */
  predicate CoveredShape<C>(e: Formula<C>, pos: bool) {
    match e
    case Literal(_) => true
    case Not(x) => CoveredShape(x, !pos)
    case And(l, r) => pos && CompleteShape(l, true) && CompleteShape(r, true)
    case Or(l, r) => if pos then AndFree(l) && AndFree(r) else CoveredShape(l, false) && CoveredShape(r, false)
  }

  /** Every valuation that gives the formula the value pos is described (flipped, without pos). */
  predicate CompleteShape<C>(e: Formula<C>, pos: bool) {
    match e
    case Literal(_) => true
    case Not(x) => CompleteShape(x, !pos)
    case And(l, r) => pos && CompleteShape(l, true) && CompleteShape(r, true)
    case Or(l, r) =>
      if pos then
        AndFree(l) && AndFree(r) && CompleteShape(l, true) && CompleteShape(r, true)
      else
        CoveredShape(l, false) && CoveredShape(r, false) && (CompleteShape(l, false) || CompleteShape(r, false))
  }

  /** What a valuation does to a formula: its value, and whether it is listed either way round. */
  datatype Class = Class(value: bool, plus: bool, minus: bool)

  const TOP := Class(true, true, false)
  const BOTTOM := Class(false, false, true)

  function NotClass(k: Class): Class { Class(!k.value, k.minus, k.plus) }

  function AndClass(j: Class, k: Class): Class {
    Class(j.value && k.value, j.plus && k.plus, j.minus && k.minus)
  }

  function OrClass(j: Class, k: Class): Class {
    Class(j.value || k.value,
          (j.plus && k.minus) || (j.minus && k.plus) || (j.plus && k.plus),
          (j.minus && k.plus) || (j.plus && k.minus) || (j.minus && k.minus))
  }

  function ClassOf<C(==)>(e: Formula<C>, a: set<C>): Class {
    Class(Eval(e, a), Listed(e, true, a), Listed(e, false, a))
  }

  /** The classes some valuation of a linear formula has. */
  ghost predicate Reach<C>(e: Formula<C>, k: Class) {
    match e
    case Literal(_) => k == TOP || k == BOTTOM
    case Not(x) => Reach(x, NotClass(k))
    case And(l, r) => exists i, j :: Reach(l, i) && Reach(r, j) && k == AndClass(i, j)
    case Or(l, r) => exists i, j :: Reach(l, i) && Reach(r, j) && k == OrClass(i, j)
  }

  lemma {:induction false} OnlyOwnClauses<C>(e: Formula<C>, a: set<C>, b: set<C>)
    requires a * Clauses(e) == b * Clauses(e)
    ensures ClassOf(e, a) == ClassOf(e, b)
    decreases e
  {
    match e
    case Literal(c) =>
      assert c in a * Clauses(e) <==> c in b * Clauses(e);
    case Not(x) => OnlyOwnClauses(x, a, b);
    case And(l, r) => SplitAgreement(l, r, a, b); OnlyOwnClauses(l, a, b); OnlyOwnClauses(r, a, b);
    case Or(l, r) => SplitAgreement(l, r, a, b); OnlyOwnClauses(l, a, b); OnlyOwnClauses(r, a, b);
  }

  lemma {:induction false} SplitAgreement<C>(l: Formula<C>, r: Formula<C>, a: set<C>, b: set<C>)
    requires a * (Clauses(l) + Clauses(r)) == b * (Clauses(l) + Clauses(r))
    ensures a * Clauses(l) == b * Clauses(l) && a * Clauses(r) == b * Clauses(r)
  {
    var both := Clauses(l) + Clauses(r);
    assert a * Clauses(l) == (a * both) * Clauses(l) && b * Clauses(l) == (b * both) * Clauses(l);
    assert a * Clauses(r) == (a * both) * Clauses(r) && b * Clauses(r) == (b * both) * Clauses(r);
  }

  lemma {:induction false} ReachHas<C>(e: Formula<C>, a: set<C>)
    ensures Reach(e, ClassOf(e, a))
  {
    match e
    case Literal(_) =>
    case Not(x) => ReachHas(x, a);
    case And(l, r) => ReachHas(l, a); ReachHas(r, a); assert ClassOf(e, a) == AndClass(ClassOf(l, a), ClassOf(r, a));
    case Or(l, r) => ReachHas(l, a); ReachHas(r, a); assert ClassOf(e, a) == OrClass(ClassOf(l, a), ClassOf(r, a));
  }

  lemma {:induction false} Combine<C>(l: Formula<C>, r: Formula<C>, a: set<C>, b: set<C>) returns (c: set<C>)
    requires Clauses(l) !! Clauses(r)
    ensures ClassOf(l, c) == ClassOf(l, a) && ClassOf(r, c) == ClassOf(r, b)
  {
    c := a * Clauses(l) + b * Clauses(r);
    assert c * Clauses(l) == a * Clauses(l);
    assert c * Clauses(r) == b * Clauses(r);
    OnlyOwnClauses(l, c, a);
    OnlyOwnClauses(r, c, b);
  }

  /** When no clause repeats, every class in Reach is attained. */
  lemma {:induction false} ReachWitness<C>(e: Formula<C>, k: Class) returns (a: set<C>)
    requires Linear(e) && Reach(e, k)
    ensures ClassOf(e, a) == k
    decreases e
  {
    match e
    case Literal(c) =>
      a := if k == TOP then {c} else {};
    case Not(x) =>
      a := ReachWitness(x, NotClass(k));
    case And(l, r) =>
      var i, j :| Reach(l, i) && Reach(r, j) && k == AndClass(i, j);
      var al := ReachWitness(l, i);
      var ar := ReachWitness(r, j);
      a := Combine(l, r, al, ar);
    case Or(l, r) =>
      var i, j :| Reach(l, i) && Reach(r, j) && k == OrClass(i, j);
      var al := ReachWitness(l, i);
      var ar := ReachWitness(r, j);
      a := Combine(l, r, al, ar);
  }

  lemma {:induction false} NotReach<C>(x: Formula<C>, j: Class) returns (k: Class)
    requires Reach(x, j)
    ensures k == NotClass(j) && Reach(Not(x), k)
  {
    k := NotClass(j);
    assert NotClass(k) == j;
  }

  lemma {:induction false} ReachAnd<C>(l: Formula<C>, r: Formula<C>, i: Class, j: Class) returns (k: Class)
    requires Reach(l, i) && Reach(r, j)
    ensures k == AndClass(i, j) && Reach(And(l, r), k)
  {
    k := AndClass(i, j);
  }

  lemma {:induction false} ReachOr<C>(l: Formula<C>, r: Formula<C>, i: Class, j: Class) returns (k: Class)
    requires Reach(l, i) && Reach(r, j)
    ensures k == OrClass(i, j) && Reach(Or(l, r), k)
  {
    k := OrClass(i, j);
  }

  lemma {:induction false} Corners<C>(e: Formula<C>)
    ensures Reach(e, TOP) && Reach(e, BOTTOM)
  {
    match e
    case Literal(_) =>
    case Not(x) => Corners(x);
    case And(l, r) =>
      Corners(l); Corners(r);
      var _ := ReachAnd(l, r, TOP, TOP);
      var _ := ReachAnd(l, r, BOTTOM, BOTTOM);
    case Or(l, r) =>
      Corners(l); Corners(r);
      var _ := ReachOr(l, r, TOP, TOP);
      var _ := ReachOr(l, r, BOTTOM, BOTTOM);
  }

  /** The four properties, as properties of one class. */
  predicate SoundClass(k: Class, pos: bool) { (if pos then k.plus else k.minus) ==> k.value == pos }
  predicate ListedClass(k: Class) { k.plus || k.minus }
  predicate CoveredClass(k: Class, pos: bool) { k.value == pos ==> ListedClass(k) }
  predicate CompleteClass(k: Class, pos: bool) { k.value == pos ==> if pos then k.plus else k.minus }

  lemma {:induction false} SoundDecided<C>(e: Formula<C>, pos: bool)
    ensures SoundShape(e, pos) <==> forall k :: Reach(e, k) ==> SoundClass(k, pos)
    decreases e
  {
    var bad := TOP;
    match e
    case Literal(_) =>
    case Not(x) =>
      SoundDecided(x, !pos);
      if SoundShape(e, pos) {
        forall k | Reach(e, k) ensures SoundClass(k, pos) { assert SoundClass(NotClass(k), !pos); }
      } else {
        var k :| Reach(x, k) && !SoundClass(k, !pos);
        bad := NotReach(x, k);
        assert Reach(e, bad) && !SoundClass(bad, pos);
      }
    case And(l, r) =>
      SoundDecided(l, pos); SoundDecided(r, pos);
      Corners(l); Corners(r);
      if SoundShape(e, pos) {
        forall k | Reach(e, k) ensures SoundClass(k, pos) {
          var i, j :| Reach(l, i) && Reach(r, j) && k == AndClass(i, j);
          assert SoundShape(l, pos) ==> SoundClass(i, pos);
          assert SoundShape(r, pos) ==> SoundClass(j, pos);
        }
      } else {
        if pos && SoundShape(l, true) {
          var j :| Reach(r, j) && !SoundClass(j, true);
          bad := ReachAnd(l, r, TOP, j);
        } else if pos {
          var i :| Reach(l, i) && !SoundClass(i, true);
          bad := ReachAnd(l, r, i, TOP);
        } else {
          var i :| Reach(l, i) && !SoundClass(i, false);
          var j :| Reach(r, j) && !SoundClass(j, false);
          bad := ReachAnd(l, r, i, j);
        }
        assert Reach(e, bad) && !SoundClass(bad, pos);
      }
    case Or(l, r) =>
      SoundDecided(l, pos); SoundDecided(r, pos);
      Corners(l); Corners(r);
      if SoundShape(e, pos) {
        forall k | Reach(e, k) ensures SoundClass(k, pos) {
          var i, j :| Reach(l, i) && Reach(r, j) && k == OrClass(i, j);
          assert SoundClass(i, true) && SoundClass(j, true);
        }
      } else {
        if !pos {
          bad := ReachOr(l, r, BOTTOM, TOP);
        } else if SoundShape(l, true) {
          var j :| Reach(r, j) && !SoundClass(j, true);
          bad := ReachOr(l, r, BOTTOM, j);
        } else {
          var i :| Reach(l, i) && !SoundClass(i, true);
          bad := ReachOr(l, r, i, BOTTOM);
        }
        assert Reach(e, bad) && !SoundClass(bad, pos);
      }
  }

  lemma {:induction false} ListedDecided<C>(e: Formula<C>)
    ensures AndFree(e) <==> forall k :: Reach(e, k) ==> ListedClass(k)
  {
    var bad := TOP;
    match e
    case Literal(_) =>
    case Not(x) =>
      ListedDecided(x);
      if AndFree(e) {
        forall k | Reach(e, k) ensures ListedClass(k) { assert ListedClass(NotClass(k)); }
      } else {
        var k :| Reach(x, k) && !ListedClass(k);
        bad := NotReach(x, k);
        assert Reach(e, bad) && !ListedClass(bad);
      }
    case And(l, r) =>
      Corners(l); Corners(r);
      bad := ReachAnd(l, r, TOP, BOTTOM);
      assert Reach(e, bad) && !ListedClass(bad);
    case Or(l, r) =>
      ListedDecided(l); ListedDecided(r);
      Corners(l); Corners(r);
      if AndFree(e) {
        forall k | Reach(e, k) ensures ListedClass(k) {
          var i, j :| Reach(l, i) && Reach(r, j) && k == OrClass(i, j);
          assert ListedClass(i) && ListedClass(j);
        }
      } else {
        if AndFree(l) {
          var j :| Reach(r, j) && !ListedClass(j);
          bad := ReachOr(l, r, TOP, j);
        } else {
          var i :| Reach(l, i) && !ListedClass(i);
          bad := ReachOr(l, r, i, TOP);
        }
        assert Reach(e, bad) && !ListedClass(bad);
      }
  }

  lemma {:induction false} CoveredDecided<C>(e: Formula<C>, pos: bool)
    ensures CoveredShape(e, pos) <==> forall k :: Reach(e, k) ==> CoveredClass(k, pos)
    decreases e, 1
  {
    var bad := TOP;
    match e
    case Literal(_) =>
    case Not(x) =>
      CoveredDecided(x, !pos);
      if CoveredShape(e, pos) {
        forall k | Reach(e, k) ensures CoveredClass(k, pos) { assert CoveredClass(NotClass(k), !pos); }
      } else {
        var k :| Reach(x, k) && !CoveredClass(k, !pos);
        bad := NotReach(x, k);
        assert Reach(e, bad) && !CoveredClass(bad, pos);
      }
    case And(l, r) =>
      CompleteDecided(l, true); CompleteDecided(r, true);
      Corners(l); Corners(r);
      if CoveredShape(e, pos) {
        forall k | Reach(e, k) ensures CoveredClass(k, pos) {
          var i, j :| Reach(l, i) && Reach(r, j) && k == AndClass(i, j);
          assert CompleteClass(i, true) && CompleteClass(j, true);
        }
      } else {
        if !pos {
          bad := ReachAnd(l, r, TOP, BOTTOM);
        } else if CompleteShape(l, true) {
          var j :| Reach(r, j) && !CompleteClass(j, true);
          bad := ReachAnd(l, r, TOP, j);
        } else {
          var i :| Reach(l, i) && !CompleteClass(i, true);
          bad := ReachAnd(l, r, i, TOP);
        }
        assert Reach(e, bad) && !CoveredClass(bad, pos);
      }
    case Or(l, r) =>
      CoveredOr(l, r, pos);
  }

  lemma {:induction false} CompleteDecided<C>(e: Formula<C>, pos: bool)
    ensures CompleteShape(e, pos) <==> forall k :: Reach(e, k) ==> CompleteClass(k, pos)
    decreases e, 0
  {
    var bad := TOP;
    match e
    case Literal(_) =>
    case Not(x) =>
      CompleteDecided(x, !pos);
      if CompleteShape(e, pos) {
        forall k | Reach(e, k) ensures CompleteClass(k, pos) { assert CompleteClass(NotClass(k), !pos); }
      } else {
        var k :| Reach(x, k) && !CompleteClass(k, !pos);
        bad := NotReach(x, k);
        assert Reach(e, bad) && !CompleteClass(bad, pos);
      }
    case And(l, r) =>
      CompleteDecided(l, true); CompleteDecided(r, true);
      Corners(l); Corners(r);
      if CompleteShape(e, pos) {
        forall k | Reach(e, k) ensures CompleteClass(k, pos) {
          var i, j :| Reach(l, i) && Reach(r, j) && k == AndClass(i, j);
          assert CompleteClass(i, true) && CompleteClass(j, true);
        }
      } else {
        if !pos {
          bad := ReachAnd(l, r, TOP, BOTTOM);
        } else if CompleteShape(l, true) {
          var j :| Reach(r, j) && !CompleteClass(j, true);
          bad := ReachAnd(l, r, TOP, j);
        } else {
          var i :| Reach(l, i) && !CompleteClass(i, true);
          bad := ReachAnd(l, r, i, TOP);
        }
        assert Reach(e, bad) && !CompleteClass(bad, pos);
      }
    case Or(l, r) =>
      CompleteOr(l, r, pos);
  }

  lemma {:induction false} CoveredOr<C>(l: Formula<C>, r: Formula<C>, pos: bool)
    ensures CoveredShape(Or(l, r), pos) <==> forall k :: Reach(Or(l, r), k) ==> CoveredClass(k, pos)
    decreases Or(l, r), 0, 1
  {
    if CoveredShape(Or(l, r), pos) {
      forall k | Reach(Or(l, r), k) ensures CoveredClass(k, pos) {
        CoveredOrGood(l, r, pos, k);
      }
    } else {
      var bad := CoveredOrBad(l, r, pos);
    }
  }

  lemma {:induction false} CoveredOrGood<C>(l: Formula<C>, r: Formula<C>, pos: bool, k: Class)
    requires CoveredShape(Or(l, r), pos) && Reach(Or(l, r), k)
    ensures CoveredClass(k, pos)
    decreases Or(l, r), 0, 0
  {
    var i, j :| Reach(l, i) && Reach(r, j) && k == OrClass(i, j);
    if pos {
      ListedDecided(l); ListedDecided(r);
      assert ListedClass(i) && ListedClass(j);
    } else {
      CoveredDecided(l, false); CoveredDecided(r, false);
      assert CoveredClass(i, false) && CoveredClass(j, false);
    }
  }

  lemma {:induction false} CoveredOrBad<C>(l: Formula<C>, r: Formula<C>, pos: bool) returns (bad: Class)
    requires !CoveredShape(Or(l, r), pos)
    ensures Reach(Or(l, r), bad) && !CoveredClass(bad, pos)
    decreases Or(l, r), 0, 0
  {
    Corners(l); Corners(r);
    if pos {
      ListedDecided(l); ListedDecided(r);
      if !AndFree(l) {
        var i :| Reach(l, i) && !ListedClass(i);
        bad := ReachOr(l, r, i, TOP);
      } else {
        var j :| Reach(r, j) && !ListedClass(j);
        bad := ReachOr(l, r, TOP, j);
      }
    } else {
      CoveredDecided(l, false); CoveredDecided(r, false);
      if !CoveredShape(l, false) {
        var i :| Reach(l, i) && !CoveredClass(i, false);
        bad := ReachOr(l, r, i, BOTTOM);
      } else {
        var j :| Reach(r, j) && !CoveredClass(j, false);
        bad := ReachOr(l, r, BOTTOM, j);
      }
    }
  }

  lemma {:induction false} CompleteOr<C>(l: Formula<C>, r: Formula<C>, pos: bool)
    ensures CompleteShape(Or(l, r), pos) <==> forall k :: Reach(Or(l, r), k) ==> CompleteClass(k, pos)
    decreases Or(l, r), 0, 0
  {
    var e := Or(l, r);
    var bad := TOP;
    if pos {
      ListedDecided(l); ListedDecided(r);
    } else {
      CoveredDecided(l, false); CoveredDecided(r, false);
    }
    CompleteDecided(l, pos); CompleteDecided(r, pos);
    Corners(l); Corners(r);
    if CompleteShape(e, pos) {
      forall k | Reach(e, k) ensures CompleteClass(k, pos) {
        var i, j :| Reach(l, i) && Reach(r, j) && k == OrClass(i, j);
        assert if pos then ListedClass(i) && ListedClass(j) else CoveredClass(i, false) && CoveredClass(j, false);
        assert CompleteShape(l, pos) ==> CompleteClass(i, pos);
        assert CompleteShape(r, pos) ==> CompleteClass(j, pos);
      }
    } else {
      if pos && !AndFree(l) {
        var i :| Reach(l, i) && !ListedClass(i);
        bad := ReachOr(l, r, i, TOP);
      } else if pos && !AndFree(r) {
        var j :| Reach(r, j) && !ListedClass(j);
        bad := ReachOr(l, r, TOP, j);
      } else if pos && !CompleteShape(l, true) {
        var i :| Reach(l, i) && !CompleteClass(i, true);
        bad := ReachOr(l, r, i, BOTTOM);
      } else if pos {
        var j :| Reach(r, j) && !CompleteClass(j, true);
        bad := ReachOr(l, r, BOTTOM, j);
      } else if !CoveredShape(l, false) {
        var i :| Reach(l, i) && !CoveredClass(i, false);
        bad := ReachOr(l, r, i, BOTTOM);
      } else if !CoveredShape(r, false) {
        var j :| Reach(r, j) && !CoveredClass(j, false);
        bad := ReachOr(l, r, BOTTOM, j);
      } else {
        var i :| Reach(l, i) && !CompleteClass(i, false);
        var j :| Reach(r, j) && !CompleteClass(j, false);
        bad := ReachOr(l, r, i, j);
      }
      assert Reach(e, bad) && !CompleteClass(bad, pos);
    }
  }

  // ---------------------------------------------------------------------
  // The theorems about SAT
  // ---------------------------------------------------------------------

  /** SAT only describes satisfying valuations. */
  ghost predicate SatIsSound<C(!new)>(e: Formula<C>) {
    forall s, a: set<C> :: s in Sat(e) && Matches(s, a) ==> Eval(e, a)
  }

  /** SAT describes every satisfying valuation. */
  ghost predicate SatIsComplete<C(!new)>(e: Formula<C>) {
    forall a: set<C> :: Eval(e, a) ==> exists s :: s in Sat(e) && Matches(s, a)
  }

  /** With or without repeated clauses, a sound shape makes SAT sound. */
  lemma {:induction false} SatSound<C(!new)>(e: Formula<C>)
    requires SoundShape(e, true)
    ensures SatIsSound(e)
  {
    forall s, a: set<C> | s in Sat(e) && Matches(s, a) ensures Eval(e, a) {
      ListedIffSolution(e, true, a);
      assert Matches(Orient(s, true), a);
      SoundDecided(e, true);
      ReachHas(e, a);
      assert SoundClass(ClassOf(e, a), true);
    }
  }

  /** With or without repeated clauses, a complete shape makes SAT complete. */
  lemma {:induction false} SatComplete<C(!new)>(e: Formula<C>)
    requires CompleteShape(e, true)
    ensures SatIsComplete(e)
  {
    forall a: set<C> | Eval(e, a) ensures exists s :: s in Sat(e) && Matches(s, a) {
      CompleteDecided(e, true);
      ReachHas(e, a);
      assert CompleteClass(ClassOf(e, a), true);
      ListedIffSolution(e, true, a);
      var s :| s in Sat(e) && Matches(Orient(s, true), a);
    }
  }

  /** When no clause repeats, SAT is sound exactly for the sound shapes. */
  lemma {:induction false} SatSoundIff<C(!new)>(e: Formula<C>)
    requires Linear(e)
    ensures SatIsSound(e) <==> SoundShape(e, true)
  {
    SoundDecided(e, true);
    if SoundShape(e, true) {
      SatSound(e);
    } else {
      var k :| Reach(e, k) && !SoundClass(k, true);
      var a := ReachWitness(e, k);
      ListedIffSolution(e, true, a);
      var s :| s in Sat(e) && Matches(Orient(s, true), a);
      assert Matches(s, a) && !Eval(e, a);
    }
  }

  /** When no clause repeats, SAT is complete exactly for the complete shapes. */
  lemma {:induction false} SatCompleteIff<C(!new)>(e: Formula<C>)
    requires Linear(e)
    ensures SatIsComplete(e) <==> CompleteShape(e, true)
  {
    CompleteDecided(e, true);
    if CompleteShape(e, true) {
      SatComplete(e);
    } else {
      var k :| Reach(e, k) && !CompleteClass(k, true);
      var a := ReachWitness(e, k);
      if SatIsComplete(e) {
        var s :| s in Sat(e) && Matches(s, a);
        assert Matches(Orient(s, true), a);
        ListedIffSolution(e, true, a);
        assert false;
      }
    }
  }

  /** `not (a or b)` has a consistent solution that makes it false. */
  lemma {:induction false} NotSoundAt<C(!new)>(a: C, b: C)
    requires a != b
    ensures !SatIsSound(Not(Or(Literal(a), Literal(b))))
  {
    SatSoundIff(Not(Or(Literal(a), Literal(b))));
  }

  /** `(a and b) or c` has a satisfying valuation that no solution describes. */
  lemma {:induction false} NotCompleteAt<C(!new)>(a: C, b: C, c: C)
    requires a != b && b != c && c != a
    ensures !SatIsComplete(Or(And(Literal(a), Literal(b)), Literal(c)))
  {
    SatCompleteIff(Or(And(Literal(a), Literal(b)), Literal(c)));
  }

  /** Every formula without repeated clauses has at least one genuine solution in the list. */
  lemma {:induction false} SatFindsOne<C(!new)>(e: Formula<C>)
    requires Linear(e)
    ensures exists s, a: set<C> :: s in Sat(e) && Matches(s, a) && Eval(e, a)
  {
    Corners(e);
    var a := ReachWitness(e, TOP);
    ListedIffSolution(e, true, a);
    var s :| s in Sat(e) && Matches(Orient(s, true), a);
    assert Matches(s, a);
  }

  predicate NotFree<C>(e: Formula<C>) {
    match e
    case Literal(_) => true
    case Not(_) => false
    case And(l, r) => NotFree(l) && NotFree(r)
    case Or(l, r) => NotFree(l) && NotFree(r)
  }

  predicate NoAndUnderOr<C>(e: Formula<C>) {
    match e
    case Literal(_) => true
    case Not(x) => NoAndUnderOr(x)
    case And(l, r) => NoAndUnderOr(l) && NoAndUnderOr(r)
    case Or(l, r) => AndFree(l) && AndFree(r)
  }

  /** Every `or` lies under an even number of `not`s (odd, without pos). */
  predicate OrsPositive<C>(e: Formula<C>, pos: bool) {
    match e
    case Literal(_) => true
    case Not(x) => OrsPositive(x, !pos)
    case And(l, r) => OrsPositive(l, pos) && OrsPositive(r, pos)
    case Or(l, r) => pos && OrsPositive(l, pos) && OrsPositive(r, pos)
  }

  lemma {:induction false} PolarityIsSound<C>(e: Formula<C>, pos: bool)
    requires OrsPositive(e, pos)
    ensures SoundShape(e, pos)
    decreases e
  {
    match e
    case Literal(_) =>
    case Not(x) => PolarityIsSound(x, !pos);
    case And(l, r) => PolarityIsSound(l, pos); PolarityIsSound(r, pos);
    case Or(l, r) => PolarityIsSound(l, pos); PolarityIsSound(r, pos);
  }

  /** The documented coverpoints, built with `and` and `or` only. */
  lemma {:induction false} NotFreeShapes<C>(e: Formula<C>)
    requires NotFree(e)
    ensures SoundShape(e, true)
    ensures CompleteShape(e, true) <==> NoAndUnderOr(e)
    ensures AndFree(e) ==> NoAndUnderOr(e)
  {
    match e
    case Literal(_) =>
    case And(l, r) => NotFreeShapes(l); NotFreeShapes(r);
    case Or(l, r) => NotFreeShapes(l); NotFreeShapes(r);
  }
}
