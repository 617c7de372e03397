/**
  parse_csr_covpt of riscv_ctg/csr_comb.py: a two-stack operator-precedence
  parser that tells operator brackets from a clause's own brackets by the depth
  at which each clause's `==` stands.
 */
module CsrParser {
  import opened Wrappers
  import opened CsrFormula

  datatype Operator = NotOp | AndOp | OrOp

  datatype Token = Open | Close | Op(op: Operator) | Equals | Other(text: string)

  type Clause = seq<Token>

  datatype StackItem = Bracket | Pending(op: Operator)

  function Priority(op: Operator): int {
    match op
    case NotOp => -1
    case AndOp => -2
    case OrOp => -3
  }

  // ---------------------------------------------------------------------
  // Reducing the stacks
  // ---------------------------------------------------------------------

  datatype Stack<T> = Empty | Push(top: T, rest: Stack<T>)

  type Operators = Stack<StackItem>
  type Operands = Stack<Formula<Clause>>

  /** Pops the operands of one operator and pushes the result; None is Python's IndexError. */
  function Apply(item: StackItem, out: Operands): Option<Operands> {
    if item == Pending(NotOp) then
      match out
      case Empty => None
      case Push(x, rest) => Some(Push(Not(x), rest))
    else
      match out
      case Push(rhs, Push(lhs, rest)) =>
        Some(Push(if item == Pending(AndOp) then And(lhs, rhs) else Or(lhs, rhs), rest))
      case _ => None
  }

  /** The three conditions under which the source's reduction loops stop. */
  datatype Stop = AtBracket | NotAbove(op: Operator) | AtEnd

  predicate Stops(stop: Stop, item: StackItem) {
    match stop
    case AtBracket => item == Bracket
    case NotAbove(op) => item == Bracket || Priority(item.op) <= Priority(op)
    case AtEnd => false
  }

  datatype Stacks = Stacks(ops: Operators, out: Operands)

  function Reduce(stop: Stop, ops: Operators, out: Operands): Option<Stacks> {
    match ops
    case Empty => if stop == AtBracket then None else Some(Stacks(ops, out))
    case Push(item, below) =>
      if Stops(stop, item) then Some(Stacks(ops, out))
      else
        match Apply(item, out)
        case None => None
        case Some(out') => Reduce(stop, below, out')
  }

  method ReduceLoop(stop: Stop, ops0: Operators, out0: Operands) returns (r: Option<Stacks>)
    ensures r == Reduce(stop, ops0, out0)
  {
    var ops, out := ops0, out0;
    while ops.Push? && !Stops(stop, ops.top)
      invariant Reduce(stop, ops, out) == Reduce(stop, ops0, out0)
      decreases ops
    {
      match Apply(ops.top, out)
      case None => return None;
      case Some(out') => ops, out := ops.rest, out';
    }
    if ops.Empty? && stop == AtBracket {
      return None;
    }
    return Some(Stacks(ops, out));
  }

  // ---------------------------------------------------------------------
  // The scan
  // ---------------------------------------------------------------------

  function DepthStep(tok: Token, d: int): int {
    match tok
    case Open => d + 1
    case Close => d - 1
    case _ => d
  }

  /** The bracket depth of each `==`. */
  function ClauseDepths(toks: seq<Token>, d: int): seq<int> {
    if toks == [] then []
    else (if toks[0] == Equals then [d] else []) + ClauseDepths(toks[1..], DepthStep(toks[0], d))
  }

  datatype State = State(depth: int, ops: Operators, out: Operands, index: nat, cur: Clause)

  /** Stopped is the loop's `break`, Failed an IndexError. */
  datatype Outcome = Running(st: State) | Stopped(st: State) | Failed

  /** Reduces down to an operator bracket and drops it. */
  function CloseBracket(st: State): Outcome {
    match Reduce(AtBracket, st.ops, st.out)
    case None => Failed
    case Some(s) => if s.ops.Empty? then Failed else Running(st.(ops := s.ops.rest, out := s.out))
  }

  /** Makes a literal of the clause being collected. */
  function EndClause(st: State): State {
    st.(out := Push(Literal(st.cur), st.out), cur := [], index := st.index + 1)
  }

  /** Reduces what binds tighter than op, then stacks op; n is the number of clauses. */
  function PushOperator(st: State, n: nat, op: Operator): Outcome {
    if st.index >= n then Failed
    else
      match Reduce(NotAbove(op), st.ops, st.out)
      case None => Failed
      case Some(s) => Running(st.(ops := Push(Pending(op), s.ops), out := s.out))
  }

  function Step(depths: seq<int>, st: State, tok: Token): (o: Outcome)
    requires st.index < |depths|
    ensures o.Running? ==> o.st.index < |depths|
  {
    var here := st.(depth := DepthStep(tok, st.depth));
    match tok
    case Open =>
      if here.depth > depths[st.index] then
        Running(here.(cur := st.cur + [tok]))
      else
        Running(here.(ops := Push(Bracket, st.ops)))
    case Close =>
      if st.cur == [] then
        CloseBracket(here)
      else if here.depth < depths[st.index] then
        var closed := CloseBracket(EndClause(here));
        if closed.Running? && closed.st.index >= |depths| then Stopped(closed.st) else closed
      else
        Running(here.(cur := st.cur + [tok]))
    case Op(op) =>
      PushOperator(if st.cur == [] then st else EndClause(st), |depths|, op)
    case _ =>
      Running(st.(cur := st.cur + [tok]))
  }

  function Run(depths: seq<int>, o: Outcome, toks: seq<Token>): Outcome
    requires o.Running? ==> o.st.index < |depths|
    decreases |toks|
  {
    if toks == [] || !o.Running? then o else Run(depths, Step(depths, o.st, toks[0]), toks[1..])
  }

  function Finish(o: Outcome): Option<Formula<Clause>> {
    if o.Failed? then None
    else
      var out := if o.st.cur == [] then o.st.out else Push(Literal(o.st.cur), o.st.out);
      match Reduce(AtEnd, o.st.ops, out)
      case None => None
      case Some(s) => if s.out.Empty? then None else Some(s.out.top)
  }

  const START := State(0, Empty, Empty, 0, [])

  function Parse(toks: seq<Token>): Option<Formula<Clause>> {
    var depths := ClauseDepths(toks, 0);
    if depths == [] then None else Finish(Run(depths, Running(START), toks))
  }

  lemma {:induction false} ClauseDepthsAppend(a: seq<Token>, b: seq<Token>, d: int)
    ensures ClauseDepths(a + b, d) == ClauseDepths(a, d) + ClauseDepths(b, DepthAfter(a, d))
    decreases |a|
  {
    if a == [] {
      assert a + b == b;
    } else {
      var d' := DepthStep(a[0], d);
      ClauseDepthsAppend(a[1..], b, d');
      var head := if a[0] == Equals then [d] else [];
      calc {
        ClauseDepths(a + b, d);
        { assert (a + b)[1..] == a[1..] + b; }
        head + ClauseDepths(a[1..] + b, d');
        head + (ClauseDepths(a[1..], d') + ClauseDepths(b, DepthAfter(a, d)));
        (head + ClauseDepths(a[1..], d')) + ClauseDepths(b, DepthAfter(a, d));
        ClauseDepths(a, d) + ClauseDepths(b, DepthAfter(a, d));
      }
    }
  }

  function DepthAfter(toks: seq<Token>, d: int): int {
    if toks == [] then d else DepthAfter(toks[1..], DepthStep(toks[0], d))
  }

  lemma {:induction false} DepthAfterAppend(a: seq<Token>, b: seq<Token>, d: int)
    ensures DepthAfter(a + b, d) == DepthAfter(b, DepthAfter(a, d))
    decreases |a|
  {
    if a == [] {
      assert a + b == b;
    } else {
      assert (a + b)[1..] == a[1..] + b;
      DepthAfterAppend(a[1..], b, DepthStep(a[0], d));
    }
  }

  lemma {:induction false} RunAppend(depths: seq<int>, o: Outcome, a: seq<Token>, b: seq<Token>)
    requires o.Running? ==> o.st.index < |depths|
    ensures Run(depths, o, a).Running? ==> Run(depths, o, a).st.index < |depths|
    ensures Run(depths, o, a + b) == Run(depths, Run(depths, o, a), b)
    decreases |a|
  {
    if a == [] {
      assert a + b == b;
    } else if o.Running? {
      assert (a + b)[1..] == a[1..] + b;
      RunAppend(depths, Step(depths, o.st, a[0]), a[1..], b);
    }
  }

  // ---------------------------------------------------------------------
  // Concrete syntax
  // ---------------------------------------------------------------------

  datatype Syntax =
    | Atom(toks: Clause)
    | Paren(inner: Syntax)
    | NotS(x: Syntax)
    | AndS(l: Syntax, r: Syntax)
    | OrS(l: Syntax, r: Syntax)

  /** Brackets match and no operator occurs; d brackets are already open. */
  predicate Balanced(toks: seq<Token>, d: nat) {
    if toks == [] then d == 0
    else match toks[0]
      case Open => Balanced(toks[1..], d + 1)
      case Close => d > 0 && Balanced(toks[1..], d - 1)
      case Op(_) => false
      case _ => Balanced(toks[1..], d)
  }

  /** A condition such as `(csr >> 3) & 1 == 0`: its own brackets match and its one `==` is outside them. */
  predicate IsClause(toks: Clause) {
    Balanced(toks, 0) && ClauseDepths(toks, 0) == [0]
  }

  /**
    The texts without superfluous structure: not binds tighter than and, and
    tighter than or, and a chain of equal operators groups to the right.
    Level 0 allows or, level 1 and, level 2 only not, brackets and clauses.
   */
  predicate WellFormed(s: Syntax, level: nat) {
    match s
    case Atom(toks) => IsClause(toks)
    case Paren(x) => WellFormed(x, 0)
    case NotS(x) => WellFormed(x, 2)
    case AndS(l, r) => level <= 1 && WellFormed(l, 2) && WellFormed(r, 1)
    case OrS(l, r) => level == 0 && WellFormed(l, 1) && WellFormed(r, 0)
  }

  function Print(s: Syntax): seq<Token> {
    match s
    case Atom(toks) => toks
    case Paren(x) => [Open] + Print(x) + [Close]
    case NotS(x) => [Op(NotOp)] + Print(x)
    case AndS(l, r) => Print(l) + [Op(AndOp)] + Print(r)
    case OrS(l, r) => Print(l) + [Op(OrOp)] + Print(r)
  }

  function Tree(s: Syntax): Formula<Clause> {
    match s
    case Atom(toks) => Literal(toks)
    case Paren(x) => Tree(x)
    case NotS(x) => Not(Tree(x))
    case AndS(l, r) => And(Tree(l), Tree(r))
    case OrS(l, r) => Or(Tree(l), Tree(r))
  }

  /** How many operator brackets close after the last clause. */
  function Trailing(s: Syntax): nat {
    match s
    case Atom(_) => 0
    case Paren(x) => 1 + Trailing(x)
    case NotS(x) => Trailing(x)
    case AndS(_, r) => Trailing(r)
    case OrS(_, r) => Trailing(r)
  }

  function Depths(s: Syntax, d: int): (r: seq<int>)
    ensures |r| > 0
  {
    match s
    case Atom(_) => [d]
    case Paren(x) => Depths(x, d + 1)
    case NotS(x) => Depths(x, d)
    case AndS(l, r) => Depths(l, d) + Depths(r, d)
    case OrS(l, r) => Depths(l, d) + Depths(r, d)
  }

  // What is on the stacks once the text of s has been read.

  function OpsAfter(s: Syntax, ops: Operators): Operators {
    match s
    case Atom(_) => ops
    case Paren(_) => ops
    case NotS(x) => OpsAfter(x, Push(Pending(NotOp), ops))
    case AndS(_, r) => OpsAfter(r, Push(Pending(AndOp), ops))
    case OrS(_, r) => OpsAfter(r, Push(Pending(OrOp), ops))
  }

  function OutAfter(s: Syntax, out: Operands): Operands {
    match s
    case Atom(_) => out
    case Paren(x) => Push(Tree(x), out)
    case NotS(x) => OutAfter(x, out)
    case AndS(l, r) => OutAfter(r, Push(Tree(l), out))
    case OrS(l, r) => OutAfter(r, Push(Tree(l), out))
  }

  /** The clause still being collected; empty when s ends with a bracket. */
  function LeftClause(s: Syntax): Clause {
    match s
    case Atom(toks) => toks
    case Paren(_) => []
    case NotS(x) => LeftClause(x)
    case AndS(_, r) => LeftClause(r)
    case OrS(_, r) => LeftClause(r)
  }

  /** All operands, the clause being collected included. */
  function OperandsAfter(s: Syntax, out: Operands): Operands {
    if LeftClause(s) == [] then OutAfter(s, out) else Push(Literal(LeftClause(s)), OutAfter(s, out))
  }

  // ---------------------------------------------------------------------
  // Reducing what a text leaves behind
  // ---------------------------------------------------------------------

  /** None of the operators s leaves behind stops the reduction. */
  ghost predicate Passes(stop: Stop, s: Syntax) {
    match s
    case Atom(_) => true
    case Paren(_) => true
    case NotS(x) => !Stops(stop, Pending(NotOp)) && Passes(stop, x)
    case AndS(_, r) => !Stops(stop, Pending(AndOp)) && Passes(stop, r)
    case OrS(_, r) => !Stops(stop, Pending(OrOp)) && Passes(stop, r)
  }

  lemma {:induction false} PassesLevel(s: Syntax, level: nat)
    requires WellFormed(s, level)
    ensures Passes(AtBracket, s) && Passes(AtEnd, s)
    ensures level >= 2 ==> Passes(NotAbove(AndOp), s)
    ensures level >= 1 ==> Passes(NotAbove(OrOp), s)
    ensures LeftClause(s) != [] <==> Trailing(s) == 0
    decreases s
  {
    match s
    case Atom(toks) =>
    case Paren(x) =>
    case NotS(x) => PassesLevel(x, 2);
    case AndS(l, r) => PassesLevel(r, 1);
    case OrS(l, r) => PassesLevel(r, 0);
  }

  /** Whatever lies below on the stacks, a text's operators reduce to its tree. */
  lemma {:induction false} ReduceSyntax(stop: Stop, s: Syntax, ops: Operators, out: Operands, level: nat)
    requires WellFormed(s, level) && Passes(stop, s)
    ensures Reduce(stop, OpsAfter(s, ops), OperandsAfter(s, out)) == Reduce(stop, ops, Push(Tree(s), out))
    decreases s
  {
    match s
    case Atom(toks) =>
    case Paren(x) =>
    case NotS(x) => ReduceSyntax(stop, x, Push(Pending(NotOp), ops), out, 2);
    case AndS(l, r) => ReduceSyntax(stop, r, Push(Pending(AndOp), ops), Push(Tree(l), out), 1);
    case OrS(l, r) => ReduceSyntax(stop, r, Push(Pending(OrOp), ops), Push(Tree(l), out), 0);
  }

  // ---------------------------------------------------------------------
  // Depths of a printed text
  // ---------------------------------------------------------------------

  lemma {:induction false} BalancedDepth(toks: seq<Token>, d: nat, e: int)
    requires Balanced(toks, d)
    ensures DepthAfter(toks, d + e) == e
    decreases |toks|
  {
    if toks != [] {
      BalancedDepth(toks[1..], DepthStep(toks[0], d), e);
    }
  }

  function Raised(ds: seq<int>, e: int): seq<int> {
    if ds == [] then [] else [ds[0] + e] + Raised(ds[1..], e)
  }

  lemma {:induction false} DepthsShift(toks: seq<Token>, d: int, e: int)
    ensures ClauseDepths(toks, d + e) == Raised(ClauseDepths(toks, d), e)
    decreases |toks|
  {
    if toks != [] {
      DepthsShift(toks[1..], DepthStep(toks[0], d), e);
      assert DepthStep(toks[0], d + e) == DepthStep(toks[0], d) + e;
      if toks[0] == Equals {
        assert ClauseDepths(toks, d)[1..] == ClauseDepths(toks[1..], d);
      } else {
        assert ClauseDepths(toks, d) == ClauseDepths(toks[1..], DepthStep(toks[0], d));
      }
    }
  }

  lemma {:induction false} OneToken(tok: Token, d: int)
    requires tok != Equals
    ensures DepthAfter([tok], d) == DepthStep(tok, d) && ClauseDepths([tok], d) == []
  {
  }

  lemma {:induction false} PrintConcat(a: seq<Token>, tok: Token, b: seq<Token>, d: int)
    requires tok != Equals
    ensures DepthAfter(a + [tok] + b, d) == DepthAfter(b, DepthStep(tok, DepthAfter(a, d)))
    ensures ClauseDepths(a + [tok] + b, d) == ClauseDepths(a, d) + ClauseDepths(b, DepthStep(tok, DepthAfter(a, d)))
  {
    var front := a + [tok];
    OneToken(tok, DepthAfter(a, d));
    DepthAfterAppend(a, [tok], d);
    ClauseDepthsAppend(a, [tok], d);
    assert ClauseDepths(front, d) == ClauseDepths(a, d);
    DepthAfterAppend(front, b, d);
    ClauseDepthsAppend(front, b, d);
  }

  lemma {:induction false} PrintDepths(s: Syntax, level: nat, d: int)
    requires WellFormed(s, level)
    ensures DepthAfter(Print(s), d) == d
    ensures ClauseDepths(Print(s), d) == Depths(s, d)
    decreases s
  {
    match s
    case Atom(toks) =>
      BalancedDepth(toks, 0, d);
      DepthsShift(toks, 0, d);
      assert [0][1..] == [];
    case Paren(x) =>
      PrintDepths(x, 0, d + 1);
      PrintConcat([], Open, Print(x), d);
      assert [] + [Open] + Print(x) == [Open] + Print(x);
      PrintConcat([Open] + Print(x), Close, [], d);
      assert [Open] + Print(x) + [Close] + [] == Print(s);
    case NotS(x) =>
      PrintDepths(x, 2, d);
      PrintConcat([], Op(NotOp), Print(x), d);
      assert [] + [Op(NotOp)] + Print(x) == Print(s);
    case AndS(l, r) =>
      PrintDepths(l, 2, d); PrintDepths(r, 1, d);
      PrintConcat(Print(l), Op(AndOp), Print(r), d);
    case OrS(l, r) =>
      PrintDepths(l, 1, d); PrintDepths(r, 0, d);
      PrintConcat(Print(l), Op(OrOp), Print(r), d);
  }

  // ---------------------------------------------------------------------
  // The scan of a printed text
  // ---------------------------------------------------------------------

  /** Reading a clause only collects it. */
  lemma {:induction false} RunClause(depths: seq<int>, st: State, toks: seq<Token>, d: nat)
    requires st.index < |depths| && st.depth == depths[st.index] + d
    requires Balanced(toks, d) && (d > 0 ==> st.cur != [])
    ensures Run(depths, Running(st), toks) == Running(st.(depth := depths[st.index], cur := st.cur + toks))
    decreases |toks|
  {
    if toks == [] {
      assert st.cur + toks == st.cur;
    } else {
      var next := st.(depth := DepthStep(toks[0], st.depth), cur := st.cur + [toks[0]]);
      assert Step(depths, st, toks[0]) == Running(next);
      RunClause(depths, next, toks[1..], DepthStep(toks[0], d));
      assert next.cur + toks[1..] == st.cur + toks;
    }
  }

  /** The next clauses of the scan are those of s. */
  ghost predicate Upcoming(depths: seq<int>, st: State, s: Syntax) {
    && st.cur == []
    && st.index + |Depths(s, st.depth)| <= |depths|
    && depths[st.index..st.index + |Depths(s, st.depth)|] == Depths(s, st.depth)
  }

  ghost predicate IsLast(depths: seq<int>, st: State, s: Syntax) {
    st.index + |Depths(s, st.depth)| == |depths|
  }

  /** A text at this level never disturbs what lies below it on the operator stack. */
  ghost predicate Rests(ops: Operators, level: nat) {
    ops.Empty? || ops.top == Bracket || level >= 2
    || (level == 1 && ops.top != Pending(NotOp)) || (level == 0 && ops.top == Pending(OrOp))
  }

  function AfterText(st: State, s: Syntax): State {
    State(st.depth, OpsAfter(s, st.ops), OutAfter(s, st.out),
          st.index + |Depths(s, st.depth)| - (if LeftClause(s) == [] then 0 else 1), LeftClause(s))
  }

  lemma {:induction false} RunOne(depths: seq<int>, st: State, tok: Token)
    requires st.index < |depths|
    ensures Run(depths, Running(st), [tok]) == Step(depths, st, tok)
  {
  }

  lemma {:induction false} RunThree(depths: seq<int>, st: State, a: seq<Token>, tok: Token, b: seq<Token>, m1: State,
                                    m2: State)
    requires st.index < |depths| && m1.index < |depths| && m2.index < |depths|
    requires Run(depths, Running(st), a) == Running(m1)
    requires Step(depths, m1, tok) == Running(m2)
    ensures Run(depths, Running(st), a + [tok] + b) == Run(depths, Running(m2), b)
  {
    RunAppend(depths, Running(st), a + [tok], b);
    RunAppend(depths, Running(st), a, [tok]);
    RunOne(depths, m1, tok);
  }

  /** After a left operand, its operator reduces exactly that operand. */
  lemma {:induction false} StepOperator(depths: seq<int>, st: State, l: Syntax, op: Operator, level: nat)
    requires op != NotOp && level == (if op == AndOp then 2 else 1)
    requires WellFormed(l, level) && Rests(st.ops, level - 1)
    requires AfterText(st, l).index < |depths| && st.index + |Depths(l, st.depth)| < |depths|
    ensures Step(depths, AfterText(st, l), Op(op)) == Running(BeforeRight(st, l, op))
  {
    PassesLevel(l, level);
    ReduceSyntax(NotAbove(op), l, st.ops, st.out, level);
  }

  /** After the text inside an operator bracket, the bracket reduces exactly that text. */
  lemma {:induction false} StepClose(depths: seq<int>, st: State, inner: State, x: Syntax)
    requires WellFormed(x, 0)
    requires inner == st.(depth := st.depth + 1, ops := Push(Bracket, st.ops))
    requires Upcoming(depths, inner, x) && AfterText(inner, x).index < |depths|
    ensures Step(depths, AfterText(inner, x), Close) ==
            if LeftClause(x) != [] && IsLast(depths, inner, x) then Stopped(AfterText(st, Paren(x)))
            else Running(AfterText(st, Paren(x)))
  {
    var m := AfterText(inner, x);
    PassesLevel(x, 0);
    ReduceSyntax(AtBracket, x, inner.ops, st.out, 0);
    if m.cur != [] {
      LastDepth(x, 0, inner.depth);
      assert depths[m.index] == Last(Depths(x, inner.depth));
    }
  }

  function Last(s: seq<int>): int
    requires s != []
  {
    s[|s| - 1]
  }

  /** A clause at the very end of a text stands at the text's own depth. */
  lemma {:induction false} LastDepth(s: Syntax, level: nat, d: int)
    requires WellFormed(s, level) && LeftClause(s) != []
    ensures Last(Depths(s, d)) == d
    decreases s
  {
    match s
    case Atom(_) =>
    case NotS(x) => LastDepth(x, 2, d);
    case AndS(l, r) => LastDepth(r, 1, d);
    case OrS(l, r) => LastDepth(r, 0, d);
  }

  lemma {:induction false} FirstDepth(s: Syntax, d: int)
    ensures Depths(s, d)[0] >= d
    decreases s
  {
    match s
    case Atom(_) =>
    case Paren(x) => FirstDepth(x, d + 1);
    case NotS(x) => FirstDepth(x, d);
    case AndS(l, r) => FirstDepth(l, d);
    case OrS(l, r) => FirstDepth(l, d);
  }

  /** An operator bracket is recognised by the depth of the clause it leads to. */
  lemma {:induction false} StepOpen(depths: seq<int>, st: State, x: Syntax)
    requires Upcoming(depths, st.(depth := st.depth + 1), x) && st.index < |depths|
    ensures Step(depths, st, Open) == Running(st.(depth := st.depth + 1, ops := Push(Bracket, st.ops)))
  {
    FirstDepth(x, st.depth + 1);
    assert depths[st.index] == Depths(x, st.depth + 1)[0];
  }

  lemma {:induction false} StepNot(depths: seq<int>, st: State)
    requires st.index < |depths| && st.cur == []
    ensures Step(depths, st, Op(NotOp)) == Running(st.(ops := Push(Pending(NotOp), st.ops)))
  {
  }

  /** The state in which a right operand is read. */
  function BeforeRight(st: State, l: Syntax, op: Operator): State {
    State(st.depth, Push(Pending(op), st.ops), Push(Tree(l), st.out), st.index + |Depths(l, st.depth)|, [])
  }

  lemma {:induction false} UpcomingSplit(depths: seq<int>, st: State, l: Syntax, r: Syntax, op: Operator, dl: seq<int>,
                                         dr: seq<int>)
    requires dl == Depths(l, st.depth) && dr == Depths(r, st.depth)
    requires st.cur == [] && st.index + |dl| + |dr| <= |depths|
    requires depths[st.index..st.index + |dl| + |dr|] == dl + dr
    ensures Upcoming(depths, st, l) && !IsLast(depths, st, l)
    ensures Upcoming(depths, BeforeRight(st, l, op), r)
  {
    SliceSplit(depths, st.index, dl, dr);
  }

  lemma {:induction false} SliceSplit(s: seq<int>, i: nat, a: seq<int>, b: seq<int>)
    requires i + |a| + |b| <= |s| && s[i..i + |a| + |b|] == a + b
    ensures s[i..i + |a|] == a && s[i + |a|..i + |a| + |b|] == b
  {
    var both := s[i..i + |a| + |b|];
    assert s[i..i + |a|] == both[..|a|];
    assert s[i + |a|..i + |a| + |b|] == both[|a|..];
  }

  /** Reading a text leaves its pending operators; the break comes right after the last operator bracket. */
  lemma {:induction false} RunSyntax(depths: seq<int>, st: State, s: Syntax, level: nat)
    requires WellFormed(s, level) && Upcoming(depths, st, s) && Rests(st.ops, level)
    requires IsLast(depths, st, s) ==> Trailing(s) <= 1
    ensures Run(depths, Running(st), Print(s)) ==
            if IsLast(depths, st, s) && Trailing(s) == 1 then Stopped(AfterText(st, s)) else Running(AfterText(st, s))
    decreases s, 0
  {
    match s
    case Atom(toks) =>
      assert depths[st.index] == depths[st.index..st.index + 1][0];
      RunClause(depths, st, toks, 0);
      assert st.cur + toks == toks;
    case Paren(x) =>
      RunParen(depths, st, x);
    case NotS(x) =>
      var inner := st.(ops := Push(Pending(NotOp), st.ops));
      StepNot(depths, st);
      RunSyntax(depths, inner, x, 2);
      RunPrefix(depths, st, Op(NotOp), inner, Print(x), []);
      assert [Op(NotOp)] + Print(x) + [] == Print(s);
    case AndS(l, r) =>
      RunLeft(depths, st, l, r, AndOp, 2);
      RunSyntax(depths, BeforeRight(st, l, AndOp), r, 1);
    case OrS(l, r) =>
      RunLeft(depths, st, l, r, OrOp, 1);
      RunSyntax(depths, BeforeRight(st, l, OrOp), r, 0);
  }

  lemma {:induction false} RunParen(depths: seq<int>, st: State, x: Syntax)
    requires WellFormed(x, 0) && Upcoming(depths, st, Paren(x))
    requires IsLast(depths, st, Paren(x)) ==> Trailing(x) == 0
    ensures Run(depths, Running(st), Print(Paren(x))) ==
            if IsLast(depths, st, Paren(x)) then Stopped(AfterText(st, Paren(x))) else Running(AfterText(st, Paren(x)))
    decreases x, 2
  {
    var inner := st.(depth := st.depth + 1, ops := Push(Bracket, st.ops));
    StepOpen(depths, st, x);
    RunSyntax(depths, inner, x, 0);
    PassesLevel(x, 0);
    RunPrefix(depths, st, Open, inner, Print(x), [Close]);
    StepClose(depths, st, inner, x);
    RunOne(depths, AfterText(inner, x), Close);
  }

  /** One token, then a text, then more. */
  lemma {:induction false} RunPrefix(depths: seq<int>, st: State, tok: Token, inner: State, text: seq<Token>,
                                     rest: seq<Token>)
    requires st.index < |depths| && inner.index < |depths|
    requires Step(depths, st, tok) == Running(inner)
    ensures Run(depths, Running(inner), text).Running? ==> Run(depths, Running(inner), text).st.index < |depths|
    ensures Run(depths, Running(st), [tok] + text + rest) == Run(depths, Run(depths, Running(inner), text), rest)
  {
    RunAppend(depths, Running(st), [tok] + text, rest);
    RunAppend(depths, Running(st), [tok], text);
    RunOne(depths, st, tok);
  }

  /** The left operand and the operator of a binary text. */
  lemma {:induction false} RunLeft(depths: seq<int>, st: State, l: Syntax, r: Syntax, op: Operator, level: nat)
    requires op != NotOp && level == (if op == AndOp then 2 else 1)
    requires WellFormed(l, level) && Rests(st.ops, level - 1)
    requires Upcoming(depths, st, if op == AndOp then AndS(l, r) else OrS(l, r))
    ensures Upcoming(depths, BeforeRight(st, l, op), r) && Rests(BeforeRight(st, l, op).ops, level - 1)
    ensures Run(depths, Running(st), Print(l) + [Op(op)] + Print(r))
            == Run(depths, Running(BeforeRight(st, l, op)), Print(r))
    decreases l, 1
  {
    UpcomingSplit(depths, st, l, r, op, Depths(l, st.depth), Depths(r, st.depth));
    RunSyntax(depths, st, l, level);
    StepOperator(depths, st, l, op, level);
    RunThree(depths, st, Print(l), Op(op), Print(r), AfterText(st, l), BeforeRight(st, l, op));
  }

  // ---------------------------------------------------------------------
  // Two or more brackets after the last clause
  // ---------------------------------------------------------------------

  /** How many operands the operators on the stack use up; a stray bracket is applied as `or`. */
  function Uses(ops: Operators): nat {
    match ops
    case Empty => 0
    case Push(item, below) => Uses(below) + if item == Pending(NotOp) then 0 else 1
  }

  function Size(out: Operands): nat {
    match out
    case Empty => 0
    case Push(_, below) => 1 + Size(below)
  }

  /** A text is one operand more than its operators use up. */
  lemma {:induction false} OperandsBalance(s: Syntax, level: nat, ops: Operators, out: Operands)
    requires WellFormed(s, level)
    ensures Size(OperandsAfter(s, out)) - Uses(OpsAfter(s, ops)) == Size(out) - Uses(ops) + 1
    decreases s
  {
    match s
    case Atom(toks) =>
    case Paren(_) =>
    case NotS(x) => OperandsBalance(x, 2, Push(Pending(NotOp), ops), out);
    case AndS(l, r) => OperandsBalance(r, 1, Push(Pending(AndOp), ops), Push(Tree(l), out));
    case OrS(l, r) => OperandsBalance(r, 0, Push(Pending(OrOp), ops), Push(Tree(l), out));
  }

  /** Reducing to the end either fails or uses up exactly that many. */
  lemma {:induction false} ReduceAtEndUses(ops: Operators, out: Operands)
    ensures var r := Reduce(AtEnd, ops, out); r.Some? ==> Size(r.value.out) == Size(out) - Uses(ops)
    decreases ops
  {
    match ops
    case Empty =>
    case Push(item, below) =>
      match Apply(item, out)
      case None =>
      case Some(o) => ReduceAtEndUses(below, o);
  }

  ghost predicate Short(o: Outcome, st: State, missing: int) {
    o.Stopped? && o.st.cur == [] && Size(o.st.out) - Uses(o.st.ops) == Size(st.out) - Uses(st.ops) - missing
  }

  /** After the break, every bracket left on the stack is one operand too many. */
  lemma {:induction false} RunTooMany(depths: seq<int>, st: State, s: Syntax, level: nat)
    requires WellFormed(s, level) && Upcoming(depths, st, s) && Rests(st.ops, level)
    requires IsLast(depths, st, s) && Trailing(s) >= 2
    ensures Short(Run(depths, Running(st), Print(s)), st, Trailing(s) - 2)
    decreases s
  {
    match s
    case Paren(x) =>
      var inner := st.(depth := st.depth + 1, ops := Push(Bracket, st.ops));
      StepOpen(depths, st, x);
      RunPrefix(depths, st, Open, inner, Print(x), [Close]);
      if Trailing(x) == 1 {
        RunSyntax(depths, inner, x, 0);
        PassesLevel(x, 0);
        OperandsBalance(x, 0, inner.ops, inner.out);
      } else {
        RunTooMany(depths, inner, x, 0);
      }
    case NotS(x) =>
      var inner := st.(ops := Push(Pending(NotOp), st.ops));
      StepNot(depths, st);
      RunPrefix(depths, st, Op(NotOp), inner, Print(x), []);
      assert [Op(NotOp)] + Print(x) + [] == Print(s);
      RunTooMany(depths, inner, x, 2);
    case AndS(l, r) =>
      RunLeft(depths, st, l, r, AndOp, 2);
      RunTooMany(depths, BeforeRight(st, l, AndOp), r, 1);
    case OrS(l, r) =>
      RunLeft(depths, st, l, r, OrOp, 1);
      RunTooMany(depths, BeforeRight(st, l, OrOp), r, 0);
  }

  // ---------------------------------------------------------------------
  // The theorems
  // ---------------------------------------------------------------------

  lemma {:induction false} StartUpcoming(s: Syntax)
    requires WellFormed(s, 0)
    ensures ClauseDepths(Print(s), 0) == Depths(s, 0)
    ensures Upcoming(Depths(s, 0), START, s) && IsLast(Depths(s, 0), START, s)
  {
    PrintDepths(s, 0, 0);
  }

  lemma {:induction false} ParseWithin(s: Syntax)
    requires WellFormed(s, 0) && Trailing(s) <= 1
    ensures Parse(Print(s)) == Some(Tree(s))
  {
    StartUpcoming(s);
    RunSyntax(Depths(s, 0), START, s, 0);
    PassesLevel(s, 0);
    ReduceSyntax(AtEnd, s, Empty, Empty, 0);
  }

  lemma {:induction false} ParseBeyond(s: Syntax)
    requires WellFormed(s, 0) && Trailing(s) >= 2
    ensures Parse(Print(s)) == None
  {
    StartUpcoming(s);
    RunTooMany(Depths(s, 0), START, s, 0);
    var o := Run(Depths(s, 0), Running(START), Print(s));
    ReduceAtEndUses(o.st.ops, o.st.out);
  }

  /**
    Parsing a text gives back its tree if at most one operator bracket closes
    after the last clause, and otherwise the coverpoint is rejected.
   */
  lemma {:induction false} ParseInvertsPrint(s: Syntax)
    requires WellFormed(s, 0)
    ensures Parse(Print(s)) == if Trailing(s) <= 1 then Some(Tree(s)) else None
  {
    if Trailing(s) <= 1 { ParseWithin(s); } else { ParseBeyond(s); }
  }

  /** The text __str__ gives: every operand in brackets. */
  function Str(e: Formula<Clause>): Syntax {
    match e
    case Literal(c) => Atom(c)
    case Not(x) => NotS(Paren(Str(x)))
    case And(l, r) => AndS(Paren(Str(l)), Paren(Str(r)))
    case Or(l, r) => OrS(Paren(Str(l)), Paren(Str(r)))
  }

  lemma {:induction false} StrWellFormed(e: Formula<Clause>)
    requires forall c | c in Clauses(e) :: IsClause(c)
    ensures WellFormed(Str(e), 0) && Tree(Str(e)) == e
    decreases e
  {
    match e
    case Literal(c) => assert c in Clauses(e);
    case Not(x) => StrWellFormed(x);
    case And(l, r) => StrWellFormed(l); StrWellFormed(r);
    case Or(l, r) => StrWellFormed(l); StrWellFormed(r);
  }

  lemma {:induction false} StrTrailing(e: Formula<Clause>)
    ensures Trailing(Str(e)) == 0 <==> e.Literal?
  {
  }

  /** __str__ can be parsed back exactly when its last operand is a clause. */
  lemma {:induction false} ParseInvertsStr(e: Formula<Clause>)
    requires forall c | c in Clauses(e) :: IsClause(c)
    ensures Parse(Print(Str(e))) == Some(e) <==>
            match e
            case Literal(_) => true
            case Not(x) => x.Literal?
            case And(_, r) => r.Literal?
            case Or(_, r) => r.Literal?
  {
    StrWellFormed(e);
    ParseInvertsPrint(Str(e));
    match e
    case Literal(_) =>
    case Not(x) => StrTrailing(x);
    case And(_, r) => StrTrailing(r);
    case Or(_, r) => StrTrailing(r);
  }

  /** The parser, as the source's loops compute it. */
  method ParseCsrCovpt(toks: seq<Token>) returns (r: Option<Formula<Clause>>)
    ensures r == Parse(toks)
  {
    var depth := 0;
    var depths: seq<int> := [];
    for i := 0 to |toks|
      invariant depths + ClauseDepths(toks[i..], depth) == ClauseDepths(toks, 0)
    {
      assert toks[i..][1..] == toks[i + 1..];
      ghost var before := depths;
      if toks[i] == Equals {
        depths := depths + [depth];
      }
      assert depths + ClauseDepths(toks[i + 1..], DepthStep(toks[i], depth)) == before + ClauseDepths(toks[i..], depth);
      depth := DepthStep(toks[i], depth);
    }
    assert ClauseDepths(toks, 0) == depths;
    if depths == [] {
      return None;
    }

    var st := START;
    var i := 0;
    ghost var end := Run(depths, Running(START), toks);
    var current := Running(st);
    while i < |toks| && current.Running?
      invariant 0 <= i <= |toks|
      invariant current.Running? ==> current.st.index < |depths|
      invariant Run(depths, current, toks[i..]) == end
    {
      assert toks[i..][1..] == toks[i + 1..];
      current := StepLoop(depths, current.st, toks[i]);
      i := i + 1;
    }
    assert current == end;
    if current.Failed? {
      return None;
    }
    var out := if current.st.cur == [] then current.st.out else Push(Literal(current.st.cur), current.st.out);
    var reduced := ReduceLoop(AtEnd, current.st.ops, out);
    if reduced.None? || reduced.value.out.Empty? {
      return None;
    }
    return Some(reduced.value.out.top);
  }

  /** One turn of the scan, with the reductions as loops. */
  method StepLoop(depths: seq<int>, st: State, tok: Token) returns (o: Outcome)
    requires st.index < |depths|
    ensures o == Step(depths, st, tok)
  {
    var depth := DepthStep(tok, st.depth);
    match tok
    case Open =>
      if depth > depths[st.index] {
        return Running(st.(depth := depth, cur := st.cur + [tok]));
      }
      return Running(st.(depth := depth, ops := Push(Bracket, st.ops)));
    case Close =>
      if st.cur != [] && depth >= depths[st.index] {
        return Running(st.(depth := depth, cur := st.cur + [tok]));
      }
      var out := if st.cur == [] then st.out else Push(Literal(st.cur), st.out);
      var s := ReduceLoop(AtBracket, st.ops, out);
      if s.None? || s.value.ops.Empty? {
        return Failed;
      }
      var index := if st.cur == [] then st.index else st.index + 1;
      var next := State(depth, s.value.ops.rest, s.value.out, index, []);
      return if index >= |depths| then Stopped(next) else Running(next);
    case Op(op) =>
      var out, index := st.out, st.index;
      if st.cur != [] {
        out, index := Push(Literal(st.cur), out), index + 1;
        if index >= |depths| {
          return Failed;
        }
      }
      var s := ReduceLoop(NotAbove(op), st.ops, out);
      if s.None? {
        return Failed;
      }
      return Running(State(depth, Push(Pending(op), s.value.ops), s.value.out, index, []));
    case _ =>
      return Running(st.(cur := st.cur + [tok]));
  }
}
