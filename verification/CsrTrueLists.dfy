/**
  The generator of riscv_ctg/csr_comb.py keeps only the true list of each SAT
  solution.  For which coverpoints is that enough?  A solution enforces the
  formula if every valuation in which its true list holds makes the formula true.
 */
module CsrTrueLists {
  import opened CsrFormula

  // ---------------------------------------------------------------------
  // Members of the joined lists
  // ---------------------------------------------------------------------

  lemma {:induction false} AndRowMember<C>(l: Solution<C>, rs: seq<Solution<C>>, s: Solution<C>)
      returns (r: Solution<C>)
    requires s in AndRow(l, rs)
    ensures r in rs && s == Join(l, r)
  {
    if s == Join(l, rs[0]) { r := rs[0]; } else { r := AndRowMember(l, rs[1..], s); }
  }

  lemma {:induction false} AndAllMember<C>(ls: seq<Solution<C>>, rs: seq<Solution<C>>, s: Solution<C>)
    returns (l: Solution<C>, r: Solution<C>)
    requires s in AndAll(ls, rs)
    ensures l in ls && r in rs && s == Join(l, r)
  {
    if s in AndRow(ls[0], rs) {
      l := ls[0];
      r := AndRowMember(l, rs, s);
    } else {
      l, r := AndAllMember(ls[1..], rs, s);
    }
  }

  lemma {:induction false} OrRowMember<C>(l: Solution<C>, rs: seq<Solution<C>>, s: Solution<C>) returns (r: Solution<C>)
    requires s in OrRow(l, rs)
    ensures r in rs && s in OrTriple(l, r)
  {
    if s in OrTriple(l, rs[0]) { r := rs[0]; } else { r := OrRowMember(l, rs[1..], s); }
  }

  lemma {:induction false} OrAllMember<C>(ls: seq<Solution<C>>, rs: seq<Solution<C>>, s: Solution<C>)
    returns (l: Solution<C>, r: Solution<C>)
    requires s in OrAll(ls, rs)
    ensures l in ls && r in rs && s in OrTriple(l, r)
  {
    if s in OrRow(ls[0], rs) {
      l := ls[0];
      r := OrRowMember(l, rs, s);
    } else {
      l, r := OrAllMember(ls[1..], rs, s);
    }
  }

  lemma {:induction false} AndRowHas<C>(l: Solution<C>, rs: seq<Solution<C>>, r: Solution<C>)
    requires r in rs
    ensures Join(l, r) in AndRow(l, rs)
  {
    if r != rs[0] { AndRowHas(l, rs[1..], r); }
  }

  lemma {:induction false} AndAllHas<C>(ls: seq<Solution<C>>, rs: seq<Solution<C>>, l: Solution<C>, r: Solution<C>)
    requires l in ls && r in rs
    ensures Join(l, r) in AndAll(ls, rs)
  {
    if l == ls[0] { AndRowHas(l, rs, r); } else { AndAllHas(ls[1..], rs, l, r); }
  }

  lemma {:induction false} OrRowHas<C>(l: Solution<C>, rs: seq<Solution<C>>, r: Solution<C>, s: Solution<C>)
    requires r in rs && s in OrTriple(l, r)
    ensures s in OrRow(l, rs)
  {
    if r != rs[0] { OrRowHas(l, rs[1..], r, s); }
  }

  lemma {:induction false} OrAllHas<C>(ls: seq<Solution<C>>, rs: seq<Solution<C>>, l: Solution<C>, r: Solution<C>,
                                       s: Solution<C>)
    requires l in ls && r in rs && s in OrTriple(l, r)
    ensures s in OrAll(ls, rs)
  {
    if l == ls[0] { OrRowHas(l, rs, r, s); } else { OrAllHas(ls[1..], rs, l, r, s); }
  }

  lemma {:induction false} FlipHas<C>(ss: seq<Solution<C>>, s: Solution<C>)
    ensures s in ss <==> Flip(s) in FlipAll(ss)
  {
    if s in ss {
      var i :| 0 <= i < |ss| && ss[i] == s;
      assert FlipAll(ss)[i] == Flip(s);
    }
    if Flip(s) in FlipAll(ss) {
      var i :| 0 <= i < |ss| && FlipAll(ss)[i] == Flip(s);
      assert ss[i] == s;
    }
  }

  lemma {:induction false} OccurrencesAreClauses<C>(e: Formula<C>)
    ensures forall c | c in Occurrences(e) :: c in Clauses(e)
  {
    match e
    case Literal(_) =>
    case Not(x) => OccurrencesAreClauses(x);
    case And(l, r) => OccurrencesAreClauses(l); OccurrencesAreClauses(r);
    case Or(l, r) => OccurrencesAreClauses(l); OccurrencesAreClauses(r);
  }

  // ---------------------------------------------------------------------
  // The shapes whose true lists are enough
  // ---------------------------------------------------------------------

  /** The clauses of the solution's true list (without pos, of its false list) hold. */
  ghost predicate Holds<C>(s: Solution<C>, pos: bool, a: set<C>) {
    forall c | c in Orient(s, pos).trues :: c in a
  }

  /**
    Read off the formula: with pos, whether true lists force it to be true; without,
    whether false lists force it to be false.  A `not` exchanges the two; a literal
    and an `or` are forced only with pos; for an `and` without pos one side is enough.
   */
  predicate Enforced<C>(e: Formula<C>, pos: bool) {
    match e
    case Literal(_) => pos
    case Not(x) => Enforced(x, !pos)
    case And(l, r) => if pos then Enforced(l, true) && Enforced(r, true) else Enforced(l, false) || Enforced(r, false)
    case Or(l, r) => pos && Enforced(l, true) && Enforced(r, true)
  }

  /** In an enforced shape every solution enforces the formula, repeated clauses or not. */
  lemma {:induction false} TruesEnforce<C>(e: Formula<C>, pos: bool, s: Solution<C>, a: set<C>)
    requires Enforced(e, pos) && s in Sat(e) && Holds(s, pos, a)
    ensures Eval(e, a) == pos
    decreases e
  {
    match e
    case Literal(c) =>
      assert c in Orient(s, pos).trues;
    case Not(x) =>
      FlipHas(Sat(x), Flip(s));
      TruesEnforce(x, !pos, Flip(s), a);
    case And(x, y) =>
      var l, r := AndAllMember(Sat(x), Sat(y), s);
      JoinHolds(l, r, pos, a);
      if Enforced(x, pos) { TruesEnforce(x, pos, l, a); }
      if Enforced(y, pos) { TruesEnforce(y, pos, r, a); }
    case Or(x, y) =>
      var l, r := OrAllMember(Sat(x), Sat(y), s);
      if s == Join(Flip(l), r) {
        JoinHolds(Flip(l), r, true, a);
        TruesEnforce(y, true, r, a);
      } else {
        JoinHolds(l, if s == Join(l, r) then r else Flip(r), true, a);
        TruesEnforce(x, true, l, a);
      }
  }

  lemma {:induction false} JoinHolds<C>(l: Solution<C>, r: Solution<C>, pos: bool, a: set<C>)
    ensures Holds(Join(l, r), pos, a) <==> Holds(l, pos, a) && Holds(r, pos, a)
  {
    assert forall c :: c in Orient(Join(l, r), pos).trues <==> c in Orient(l, pos).trues || c in Orient(r, pos).trues;
  }

  lemma {:induction false} FlipHolds<C>(s: Solution<C>, pos: bool, a: set<C>)
    ensures Holds(Flip(s), pos, a) <==> Holds(s, !pos, a)
  {
  }

  // ---------------------------------------------------------------------
  // And no others
  // ---------------------------------------------------------------------

  /** A solution whose list (see Holds) holds in a valuation that gives the formula this value. */
  ghost predicate Shows<C>(e: Formula<C>, pos: bool, value: bool, s: Solution<C>, a: set<C>) {
    s in Sat(e) && Holds(s, pos, a) && Eval(e, a) == value
  }

  /** Only a formula's own clauses matter to Shows. */
  lemma {:induction false} ShowsOwn<C>(e: Formula<C>, pos: bool, value: bool, s: Solution<C>, a: set<C>, b: set<C>)
    requires Shows(e, pos, value, s, a) && a * Clauses(e) == b * Clauses(e)
    ensures Shows(e, pos, value, s, b)
  {
    OnlyOwnClauses(e, a, b);
    ListsAreClauses(e, s);
    forall c | c in Orient(s, pos).trues ensures c in b {
      assert c in a * Clauses(e);
    }
  }

  lemma {:induction false} ListsAreClauses<C>(e: Formula<C>, s: Solution<C>)
    requires s in Sat(e)
    ensures forall c | c in s.trues || c in s.falses :: c in Clauses(e)
  {
    SatPartitions(e);
    OccurrencesAreClauses(e);
    assert Splits(s, Occurrences(e));
    forall c | c in s.trues || c in s.falses ensures c in Clauses(e) {
      assert c in multiset(s.trues) || c in multiset(s.falses);
    }
  }

  /** What the two sides of a formula show, one valuation shows together. */
  lemma {:induction false} Together<C>(l: Formula<C>, lp: bool, lv: bool, ls: Solution<C>, la: set<C>,
                                       r: Formula<C>, rp: bool, rv: bool, rs: Solution<C>, ra: set<C>)
    returns (a: set<C>)
    requires Clauses(l) !! Clauses(r) && Shows(l, lp, lv, ls, la) && Shows(r, rp, rv, rs, ra)
    ensures Shows(l, lp, lv, ls, a) && Shows(r, rp, rv, rs, a)
  {
    a := la * Clauses(l) + ra * Clauses(r);
    assert a * Clauses(l) == la * Clauses(l) && a * Clauses(r) == ra * Clauses(r);
    ShowsOwn(l, lp, lv, ls, la, a);
    ShowsOwn(r, rp, rv, rs, ra, a);
  }

  /** Every formula has a solution that is right about it, either way round. */
  lemma {:induction false} Right<C>(e: Formula<C>, pos: bool) returns (s: Solution<C>, a: set<C>)
    requires Linear(e)
    ensures Shows(e, pos, pos, s, a)
    decreases e
  {
    match e
    case Literal(c) =>
      s, a := Solution([c], []), if pos then {c} else {};
    case Not(x) =>
      var t;
      t, a := Right(x, !pos);
      s := Flip(t);
      FlipHas(Sat(x), t);
      FlipHolds(t, pos, a);
    case And(l, r) =>
      var ls, la := Right(l, pos);
      var rs, ra := Right(r, pos);
      a := Together(l, pos, pos, ls, la, r, pos, pos, rs, ra);
      s := Join(ls, rs);
      AndAllHas(Sat(l), Sat(r), ls, rs);
      JoinHolds(ls, rs, pos, a);
    case Or(l, r) =>
      var ls, la := Right(l, pos);
      var rs, ra := Right(r, pos);
      a := Together(l, pos, pos, ls, la, r, pos, pos, rs, ra);
      s := Join(ls, rs);
      OrAllHas(Sat(l), Sat(r), ls, rs, s);
      JoinHolds(ls, rs, pos, a);
  }

  /** A shape that is not enforced has a solution that is wrong about it. */
  lemma {:induction false} Wrong<C>(e: Formula<C>, pos: bool) returns (s: Solution<C>, a: set<C>)
    requires Linear(e) && !Enforced(e, pos)
    ensures Shows(e, pos, !pos, s, a)
    decreases e
  {
    match e
    case Literal(c) =>
      s, a := Solution([c], []), {c};
    case Not(x) =>
      var t;
      t, a := Wrong(x, !pos);
      s := Flip(t);
      FlipHas(Sat(x), t);
      FlipHolds(t, pos, a);
    case And(l, r) =>
      s, a := WrongAnd(l, r, pos);
    case Or(l, r) =>
      s, a := WrongOr(l, r, pos);
  }

  lemma {:induction false} WrongAnd<C>(l: Formula<C>, r: Formula<C>, pos: bool) returns (s: Solution<C>, a: set<C>)
    requires Linear(And(l, r)) && !Enforced(And(l, r), pos)
    ensures Shows(And(l, r), pos, !pos, s, a)
    decreases And(l, r), 0
  {
    var wl, wr := !Enforced(l, pos), !Enforced(r, pos);
    var ls, la, rs, ra;
    if wl { ls, la := Wrong(l, pos); } else { ls, la := Right(l, pos); }
    if wr { rs, ra := Wrong(r, pos); } else { rs, ra := Right(r, pos); }
    a := Together(l, pos, if wl then !pos else pos, ls, la, r, pos, if wr then !pos else pos, rs, ra);
    s := Join(ls, rs);
    AndAllHas(Sat(l), Sat(r), ls, rs);
    JoinHolds(ls, rs, pos, a);
  }

  lemma {:induction false} WrongOr<C>(l: Formula<C>, r: Formula<C>, pos: bool) returns (s: Solution<C>, a: set<C>)
    requires Linear(Or(l, r)) && !Enforced(Or(l, r), pos)
    ensures Shows(Or(l, r), pos, !pos, s, a)
    decreases Or(l, r), 0
  {
    if pos && !Enforced(l, true) {
      var ls, la := Wrong(l, true);
      var rs, ra := Right(r, false);
      a := Together(l, true, false, ls, la, r, false, false, rs, ra);
      s := Join(ls, Flip(rs));
      OrAllHas(Sat(l), Sat(r), ls, rs, s);
      FlipHolds(rs, true, a);
      JoinHolds(ls, Flip(rs), true, a);
    } else if pos {
      var ls, la := Right(l, false);
      var rs, ra := Wrong(r, true);
      a := Together(l, false, false, ls, la, r, true, false, rs, ra);
      s := Join(Flip(ls), rs);
      OrAllHas(Sat(l), Sat(r), ls, rs, s);
      FlipHolds(ls, true, a);
      JoinHolds(Flip(ls), rs, true, a);
    } else {
      var ls, la := Right(l, true);
      var rs, ra := Right(r, false);
      a := Together(l, true, true, ls, la, r, false, false, rs, ra);
      s := Join(Flip(ls), rs);
      OrAllHas(Sat(l), Sat(r), ls, rs, s);
      FlipHolds(ls, false, a);
      JoinHolds(Flip(ls), rs, false, a);
    }
  }

  /** The true list of every solution forces the formula. */
  ghost predicate TrueListsEnforce<C(!new)>(e: Formula<C>) {
    forall s, a | s in Sat(e) && Holds(s, true, a) :: Eval(e, a)
  }

  /** When no clause repeats, dropping the false lists is harmless exactly for the enforced shapes. */
  lemma {:induction false} EnforcedIff<C(!new)>(e: Formula<C>)
    requires Linear(e)
    ensures TrueListsEnforce(e) <==> Enforced(e, true)
  {
    if Enforced(e, true) {
      forall s, a | s in Sat(e) && Holds(s, true, a) ensures Eval(e, a) {
        TruesEnforce(e, true, s, a);
      }
    } else {
      var s, a := Wrong(e, true);
      assert Shows(e, true, false, s, a);
    }
  }

  /** Without `not` every shape is enforced; with it `not not c` still is, `not c` is not. */
  lemma {:induction false} NotFreeEnforced<C>(e: Formula<C>)
    requires NotFree(e)
    ensures Enforced(e, true)
    decreases e
  {
    match e
    case Literal(_) =>
    case And(l, r) => NotFreeEnforced(l); NotFreeEnforced(r);
    case Or(l, r) => NotFreeEnforced(l); NotFreeEnforced(r);
  }
}
