/**
  What parse_csr_covpt of riscv_ctg/csr_comb.py does with every text, well formed
  or not, and with the texts one token away from a well formed one.
 */
module CsrTexts {
  import opened Wrappers
  import opened CsrFormula
  import opened CsrParser

  // ---------------------------------------------------------------------
  // No text is invented, lost between clauses or put in another order
  // ---------------------------------------------------------------------

  predicate IsWord(tok: Token) {
    tok.Equals? || tok.Other?
  }

  /** The tokens that are neither brackets nor operators. */
  function Words(toks: seq<Token>): seq<Token> {
    if toks == [] then [] else Words(toks[..|toks| - 1]) + if IsWord(toks[|toks| - 1]) then [toks[|toks| - 1]] else []
  }

  /** Those of a tree's clauses, read from left to right. */
  function Spoken(e: Formula<Clause>): seq<Token> {
    match e
    case Literal(c) => Words(c)
    case Not(x) => Spoken(x)
    case And(l, r) => Spoken(l) + Spoken(r)
    case Or(l, r) => Spoken(l) + Spoken(r)
  }

  function StackWords(out: Operands): seq<Token> {
    match out
    case Empty => []
    case Push(e, below) => StackWords(below) + Spoken(e)
  }

  lemma {:induction false} WordsSnoc(toks: seq<Token>, tok: Token)
    ensures Words(toks + [tok]) == Words(toks) + if IsWord(tok) then [tok] else []
  {
    assert (toks + [tok])[..|toks|] == toks;
  }

  lemma {:induction false} ApplyWords(item: StackItem, out: Operands)
    ensures Apply(item, out).Some? ==> StackWords(Apply(item, out).value) == StackWords(out)
  {
  }

  lemma {:induction false} ReduceWords(stop: Stop, ops: Operators, out: Operands)
    ensures var r := Reduce(stop, ops, out); r.Some? ==> StackWords(r.value.out) == StackWords(out)
    decreases ops
  {
    if ops.Push? && !Stops(stop, ops.top) {
      ApplyWords(ops.top, out);
      match Apply(ops.top, out)
      case None =>
      case Some(o) => ReduceWords(stop, ops.rest, o);
    }
  }

  /** What the scan has taken in so far. */
  function Taken(st: State): seq<Token> {
    StackWords(st.out) + Words(st.cur)
  }

  lemma {:induction false} EndTaken(st: State)
    ensures Taken(EndClause(st)) == Taken(st)
  {
  }

  lemma {:induction false} CloseTaken(st: State)
    ensures var o := CloseBracket(st); !o.Failed? ==> Taken(o.st) == Taken(st)
  {
    ReduceWords(AtBracket, st.ops, st.out);
  }

  lemma {:induction false} PushTaken(st: State, n: nat, op: Operator)
    ensures var o := PushOperator(st, n, op); !o.Failed? ==> Taken(o.st) == Taken(st)
  {
    ReduceWords(NotAbove(op), st.ops, st.out);
  }

  lemma {:induction false} StepTaken(depths: seq<int>, st: State, tok: Token)
    requires st.index < |depths|
    ensures var o := Step(depths, st, tok);
            !o.Failed? ==> Taken(o.st) == Taken(st) + if IsWord(tok) then [tok] else []
  {
    var here := st.(depth := DepthStep(tok, st.depth));
    match tok
    case Op(op) =>
      EndTaken(st);
      PushTaken(if st.cur == [] then st else EndClause(st), |depths|, op);
    case Close =>
      WordsSnoc(st.cur, tok);
      EndTaken(here);
      CloseTaken(if st.cur == [] then here else EndClause(here));
    case _ =>
      WordsSnoc(st.cur, tok);
  }

  /** The scan has taken in the words of what it has read, which is all unless it stopped. */
  lemma {:induction false} RunTaken(depths: seq<int>, st: State, toks: seq<Token>, done: seq<Token>) returns (k: nat)
    requires st.index < |depths| && Taken(st) == Words(done)
    ensures k <= |toks| && (Run(depths, Running(st), toks).Running? ==> k == |toks|)
    ensures var o := Run(depths, Running(st), toks); !o.Failed? ==> Taken(o.st) == Words(done + toks[..k])
    decreases |toks|
  {
    if toks == [] {
      k := 0;
      assert done + toks[..0] == done;
    } else {
      var o := Step(depths, st, toks[0]);
      RunUnfold(depths, st, toks);
      StepTaken(depths, st, toks[0]);
      WordsSnoc(done, toks[0]);
      if o.Running? {
        var rest := RunTaken(depths, o.st, toks[1..], done + [toks[0]]);
        k := rest + 1;
        TakeOne(done, toks, k);
      } else {
        k := 1;
        assert done + toks[..1] == done + [toks[0]];
      }
    }
  }

  lemma {:induction false} RunUnfold(depths: seq<int>, st: State, toks: seq<Token>)
    requires st.index < |depths| && toks != []
    ensures var o := Step(depths, st, toks[0]);
            Run(depths, Running(st), toks) == if o.Running? then Run(depths, o, toks[1..]) else o
  {
  }

  lemma {:induction false} TakeOne(done: seq<Token>, toks: seq<Token>, k: nat)
    requires 0 < k <= |toks|
    ensures done + [toks[0]] + toks[1..][..k - 1] == done + toks[..k]
  {
  }

  ghost predicate EndsWith(s: seq<Token>, tail: seq<Token>) {
    |tail| <= |s| && s[|s| - |tail|..] == tail
  }

  /**
    Of any text: the clauses of the tree are, word by word and in order, the last of
    the text up to some token.  Brackets and operators apart, nothing is added,
    left out in between or moved.
   */
  lemma {:induction false} WordsKept(toks: seq<Token>)
    requires Parse(toks).Some?
    ensures exists k: nat :: k <= |toks| && EndsWith(Words(toks[..k]), Spoken(Parse(toks).value))
  {
    var depths := ClauseDepths(toks, 0);
    assert Taken(START) == Words([]);
    var k := RunTaken(depths, START, toks, []);
    assert [] + toks[..k] == toks[..k];
    var st := Run(depths, Running(START), toks).st;
    EndTaken(st);
    var out := if st.cur == [] then st.out else Push(Literal(st.cur), st.out);
    ReduceWords(AtEnd, st.ops, out);
    assert Words(toks[..k]) == StackWords(Reduce(AtEnd, st.ops, out).value.out);
    assert EndsWith(Words(toks[..k]), Spoken(Parse(toks).value));
  }

  // ---------------------------------------------------------------------
  // One token too many, or one missing
  // ---------------------------------------------------------------------

  /** A text at the beginning of another one. */
  lemma {:induction false} TextFirst(s: Syntax, rest: seq<Token>)
    requires WellFormed(s, 0)
    ensures ClauseDepths(Print(s) + rest, 0) == Depths(s, 0) + ClauseDepths(rest, 0)
    ensures var depths := Depths(s, 0) + ClauseDepths(rest, 0);
            Upcoming(depths, START, s) && (IsLast(depths, START, s) <==> ClauseDepths(rest, 0) == [])
    ensures var depths := Depths(s, 0) + ClauseDepths(rest, 0);
            var o := Run(depths, Running(START), Print(s));
            && (o.Running? ==> o.st.index < |depths|)
            && Run(depths, Running(START), Print(s) + rest) == Run(depths, o, rest)
  {
    PrintDepths(s, 0, 0);
    ClauseDepthsAppend(Print(s), rest, 0);
    RunAppend(Depths(s, 0) + ClauseDepths(rest, 0), Running(START), Print(s), rest);
  }

  /** Nothing after the bracket that closes the last clause is read. */
  lemma {:induction false} RestUnread(s: Syntax, rest: seq<Token>)
    requires WellFormed(s, 0) && Trailing(s) > 0 && ClauseDepths(rest, 0) == []
    ensures Parse(Print(s) + rest) == Parse(Print(s))
  {
    TextFirst(s, rest);
    StartUpcoming(s);
    var depths := Depths(s, 0);
    assert depths + [] == depths;
    if Trailing(s) == 1 { RunSyntax(depths, START, s, 0); } else { RunTooMany(depths, START, s, 0); }
  }

  /** A closing bracket without an opening one goes unnoticed only there; anywhere else the text is rejected. */
  lemma {:induction false} StrayClose(s: Syntax, rest: seq<Token>)
    requires WellFormed(s, 0)
    ensures Parse(Print(s) + [Close] + rest)
         == if Trailing(s) == 1 && ClauseDepths(rest, -1) == [] then Some(Tree(s)) else None
  {
    var more := [Close] + rest;
    assert Print(s) + [Close] + rest == Print(s) + more;
    assert more[1..] == rest;
    TextFirst(s, more);
    if ClauseDepths(rest, -1) == [] && Trailing(s) > 0 {
      RestUnread(s, more);
      ParseInvertsPrint(s);
    } else {
      var depths := Depths(s, 0) + ClauseDepths(more, 0);
      RunSyntax(depths, START, s, 0);
      PassesLevel(s, 0);
      NoBracketToClose(depths, s);
      RunUnfold(depths, AfterText(START, s), more);
    }
  }

  lemma {:induction false} NoBracketToClose(depths: seq<int>, s: Syntax)
    requires WellFormed(s, 0) && Upcoming(depths, START, s) && AfterText(START, s).index < |depths|
    ensures Step(depths, AfterText(START, s), Close) == Failed
  {
    PassesLevel(s, 0);
    ReduceSyntax(AtBracket, s, Empty, Empty, 0);
    if LeftClause(s) != [] {
      LastDepth(s, 0, 0);
      assert depths[AfterText(START, s).index] == Last(Depths(s, 0));
    }
  }

  /** An operator without a right operand, likewise. */
  lemma {:induction false} StrayOperator(s: Syntax, op: Operator)
    requires WellFormed(s, 0)
    ensures Parse(Print(s) + [Op(op)]) == if Trailing(s) == 1 then Some(Tree(s)) else None
  {
    assert ClauseDepths([Op(op)], 0) == [];
    ParseInvertsPrint(s);
    if Trailing(s) > 0 {
      RestUnread(s, [Op(op)]);
    } else {
      TextFirst(s, [Op(op)]);
      var depths := Depths(s, 0) + ClauseDepths([Op(op)], 0);
      RunSyntax(depths, START, s, 0);
      PassesLevel(s, 0);
      RunOne(depths, AfterText(START, s), Op(op));
    }
  }

  /** A text after one more operator or bracket, which takes one operand more than there is. */
  lemma {:induction false} OneShort(depths: seq<int>, st: State, s: Syntax, level: nat)
    requires WellFormed(s, level) && Upcoming(depths, st, s) && IsLast(depths, st, s) && Rests(st.ops, level)
    requires st.out == Empty && Uses(st.ops) > 0
    ensures Finish(Run(depths, Running(st), Print(s))) == None
  {
    if Trailing(s) <= 1 {
      RunSyntax(depths, st, s, level);
      PassesLevel(s, level);
      OperandsBalance(s, level, st.ops, st.out);
    } else {
      RunTooMany(depths, st, s, level);
    }
    var end := Run(depths, Running(st), Print(s)).st;
    ReduceAtEndUses(end.ops, if end.cur == [] then end.out else Push(Literal(end.cur), end.out));
  }

  /** A bracket that is never closed, or a binary operator without a left operand: the text is rejected. */
  lemma {:induction false} StrayFirst(s: Syntax, tok: Token)
    requires WellFormed(s, if tok == Op(AndOp) then 1 else 0) && tok in [Open, Op(AndOp), Op(OrOp)]
    ensures Parse([tok] + Print(s)) == None
  {
    var level := if tok == Op(AndOp) then 1 else 0;
    var d := DepthStep(tok, 0);
    PrintDepths(s, level, d);
    var depths := Depths(s, d);
    assert ([tok] + Print(s))[0] == tok && ([tok] + Print(s))[1..] == Print(s);
    assert ClauseDepths([tok] + Print(s), 0) == depths;
    var st := START.(depth := d, ops := Push(if tok == Open then Bracket else Pending(tok.op), Empty));
    if tok == Open { StepOpen(depths, START, s); }
    assert Step(depths, START, tok) == Running(st);
    OneShort(depths, st, s, level);
  }

  /** A bracketed text at the end, with no operator before it. */
  lemma {:induction false} LastText(depths: seq<int>, st: State, t: Syntax)
    requires WellFormed(t, 0) && Trailing(t) == 0 && Upcoming(depths, st, Paren(t)) && IsLast(depths, st, Paren(t))
    requires st.ops == Empty
    ensures Finish(Run(depths, Running(st), Print(Paren(t)))) == Some(Tree(t))
  {
    RunSyntax(depths, st, Paren(t), 0);
  }

  /** Two bracketed texts with nothing between them: the first is dropped without a word. */
  lemma {:induction false} OnlyTheSecond(s: Syntax, t: Syntax)
    requires WellFormed(s, 0) && WellFormed(t, 0) && Trailing(t) == 0
    ensures Parse(Print(Paren(s)) + Print(Paren(t))) == Some(Tree(t))
  {
    TextFirst(Paren(s), Print(Paren(t)));
    PrintDepths(Paren(t), 0, 0);
    var depths := Depths(Paren(s), 0) + Depths(Paren(t), 0);
    RunSyntax(depths, START, Paren(s), 0);
    LastText(depths, AfterText(START, Paren(s)), t);
  }
}
