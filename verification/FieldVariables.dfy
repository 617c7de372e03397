/**
  `merge_fields_f` of riscv_ctg/helpers.py: the dictionary it makes of a
  floating-point coverpoint marked #nosat, and when `valcomb` accepts it.  A
  dictionary keeps its keys in the order in which they were first assigned.
 */
module FieldVariables {
  import opened Wrappers
  import opened Arithmetic
  import opened OrderedSets
  import opened ValueSearch

  /** Variables: rs1_val to rs3_val, their NaN and sign prefixes, and others (rm_val, fcsr, imm_val, ...). */
  datatype Var = Value(n: nat) | NanPrefix(n: nat) | SgnPrefix(n: nat) | Plain(k: nat)

  /** What is put in front of a narrow value: nothing, a NaN box, or the sign. */
  datatype Box = NoBox | NanBox | SgnBox

  type Dict = seq<(Var, int)>

  /** A coverpoint: the words its fields merge to, and the values of the variables it names. */
  datatype Text = Text(fields: nat -> Option<int>, named: Var -> Option<int>)

  function BoxOf(flen: nat, iflen: nat, inx: bool): Box {
    if flen <= iflen then NoBox else if inx then SgnBox else NanBox
  }

  /** The prefix of a coverpoint that gives none: all ones. */
  function Ones(flen: nat, iflen: nat): int {
    if flen > iflen then Pow2(flen - iflen) - 1 else 0
  }

  function Prefix(box: Box, n: nat): Var {
    if box == SgnBox then SgnPrefix(n) else NanPrefix(n)
  }

  function KeysIn(d: Dict): (r: seq<Var>)
    ensures |r| == |d| && forall k | 0 <= k < |d| :: r[k] == d[k].0
  {
    seq(|d|, k requires 0 <= k < |d| => d[k].0)
  }

  /** Assignment: an old key keeps its place, a new one comes last. */
  function Put(d: Dict, x: Var, v: int): Dict {
    if x in KeysIn(d) then seq(|d|, k requires 0 <= k < |d| => if d[k].0 == x then (x, v) else d[k]) else d + [(x, v)]
  }

  lemma {:induction false} PutKeys(d: Dict, x: Var, v: int)
    ensures KeysIn(Put(d, x, v)) == Join(KeysIn(d), [x])
  {
    JoinOne(KeysIn(d), x);
  }

  // ---------------------------------------------------------------------
  // The loop
  // ---------------------------------------------------------------------

  /** One variable: its value and perhaps its prefix; none where the coverpoint leaves out what it must name. */
  function MergeOne(d: Dict, x: Var, t: Text, box: Box, merge: bool, ones: int): Option<Dict> {
    if merge && x.Value? then
      if t.fields(x.n).None? then None
      else
        var d1 := Put(d, x, t.fields(x.n).value);
        if box == NoBox then Some(d1)
        else
          var p := Prefix(box, x.n);
          Some(Put(d1, p, if t.named(p).Some? then t.named(p).value else ones))
    else if t.named(x).Some? then Some(Put(d, x, t.named(x).value))
    else if x.NanPrefix? then Some(d)
    else None
  }

  function Merged(vars: seq<Var>, t: Text, box: Box, merge: bool, ones: int): Option<Dict> {
    if vars == [] then Some([])
    else
      var n := |vars| - 1;
      var d := Merged(vars[..n], t, box, merge, ones);
      if d.None? then None else MergeOne(d.value, vars[n], t, box, merge, ones)
  }

  method MergeFields(vars: seq<Var>, t: Text, flen: nat, iflen: nat, inx: bool, merge: bool)
    returns (r: Option<Dict>)
    ensures r == Merged(vars, t, BoxOf(flen, iflen, inx), merge, Ones(flen, iflen))
  {
    var box, ones := BoxOf(flen, iflen, inx), Ones(flen, iflen);
    var d: Dict := [];
    for i := 0 to |vars|
      invariant Merged(vars[..i], t, box, merge, ones) == Some(d)
    {
      var x := vars[i];
      assert vars[..i + 1][..i] == vars[..i];
      if merge && x.Value? {
        if t.fields(x.n).None? {
          MergedNone(vars, t, box, merge, ones, i + 1);
          return None;
        }
        d := Put(d, x, t.fields(x.n).value);
        if box != NoBox {
          var p := Prefix(box, x.n);
          d := Put(d, p, if t.named(p).Some? then t.named(p).value else ones);
        }
      } else if t.named(x).Some? {
        d := Put(d, x, t.named(x).value);
      } else if !x.NanPrefix? {
        MergedNone(vars, t, box, merge, ones, i + 1);
        return None;
      }
    }
    assert vars[..|vars|] == vars;
    r := Some(d);
  }

  lemma {:induction false} MergedNone(vars: seq<Var>, t: Text, box: Box, merge: bool, ones: int, i: nat)
    requires i <= |vars| && Merged(vars[..i], t, box, merge, ones) == None
    ensures Merged(vars, t, box, merge, ones) == None
  {
    var n := |vars| - 1;
    if i <= n {
      assert vars[..n][..i] == vars[..i];
      MergedNone(vars[..n], t, box, merge, ones, i);
    } else {
      assert vars[..i] == vars;
    }
  }

  // ---------------------------------------------------------------------
  // The values
  // ---------------------------------------------------------------------

  /** Merged fields for a value to be merged, else what the coverpoint names, else all ones. */
  ghost predicate Valued(d: Dict, t: Text, merge: bool, ones: int) {
    forall k | 0 <= k < |d| ::
      var x := d[k].0;
      if merge && x.Value? then t.fields(x.n) == Some(d[k].1)
      else if t.named(x).Some? then d[k].1 == t.named(x).value
      else d[k].1 == ones
  }

  lemma {:induction false} PutValued(d: Dict, x: Var, v: int, t: Text, merge: bool, ones: int)
    requires Valued(d, t, merge, ones) && Valued([(x, v)], t, merge, ones)
    ensures Valued(Put(d, x, v), t, merge, ones)
  {
    assert [(x, v)][0] == (x, v);
  }

  /** Each key has the value it is to have. */
  lemma {:induction false} MergedValues(vars: seq<Var>, t: Text, box: Box, merge: bool, ones: int)
    requires Merged(vars, t, box, merge, ones).Some?
    ensures Valued(Merged(vars, t, box, merge, ones).value, t, merge, ones)
  {
    if vars != [] {
      var x := vars[|vars| - 1];
      var d := Merged(vars[..|vars| - 1], t, box, merge, ones).value;
      MergedValues(vars[..|vars| - 1], t, box, merge, ones);
      if merge && x.Value? {
        var v, p := t.fields(x.n).value, Prefix(box, x.n);
        PutValued(d, x, v, t, merge, ones);
        PutValued(Put(d, x, v), p, if t.named(p).Some? then t.named(p).value else ones, t, merge, ones);
      } else if t.named(x).Some? {
        PutValued(d, x, t.named(x).value, t, merge, ones);
      }
    }
  }

  /** What becomes of one value: alone if its format fills the register, else with its prefix, all ones by default. */
  lemma {:induction false} OneValue(n: nat, v: int, t: Text, flen: nat, iflen: nat, inx: bool)
    requires t.fields(n) == Some(v) && t.named(NanPrefix(n)).None?
    ensures Merged([Value(n)], t, BoxOf(flen, iflen, inx), true, Ones(flen, iflen))
         == Some([(Value(n), v)] +
                 if flen <= iflen then []
                 else if !inx then [(NanPrefix(n), Pow2(flen - iflen) - 1)]
                 else [(SgnPrefix(n), if t.named(SgnPrefix(n)).Some? then t.named(SgnPrefix(n)).value
                                      else Pow2(flen - iflen) - 1)])
  {
    var empty: seq<Var> := [];
    assert [Value(n)][..0] == empty && Merged(empty, t, BoxOf(flen, iflen, inx), true, Ones(flen, iflen)) == Some([]);
    var d := [(Value(n), v)];
    assert Put([], Value(n), v) == d;
    assert KeysIn(d) == [Value(n)] && NanPrefix(n) !in KeysIn(d) && SgnPrefix(n) !in KeysIn(d);
    assert Merged([Value(n)], t, BoxOf(flen, iflen, inx), true, Ones(flen, iflen))
        == MergeOne([], Value(n), t, BoxOf(flen, iflen, inx), true, Ones(flen, iflen));
    assert d + [] == d;
    if flen > iflen {
      var p := Prefix(BoxOf(flen, iflen, inx), n);
      var w := if t.named(p).Some? then t.named(p).value else Pow2(flen - iflen) - 1;
      assert Put(d, p, w) == d + [(p, w)];
    }
  }

  // ---------------------------------------------------------------------
  // The order of the keys
  // ---------------------------------------------------------------------

  /** The coverpoint names all it must, prefixes included. */
  predicate Given(t: Text, merge: bool, x: Var) {
    if merge && x.Value? then t.fields(x.n).Some? else t.named(x).Some?
  }

  /** What a variable adds to the keys. */
  function Mentions(t: Text, box: Box, merge: bool, x: Var): seq<Var> {
    if merge && x.Value? && box != NoBox then [x, Prefix(box, x.n)]
    else if Given(t, merge, x) then [x]
    else []
  }

  lemma {:induction false} JoinTwo(h: seq<Var>, x: Var, y: Var)
    requires x != y
    ensures Join(h, [x, y]) == Join(Join(h, [x]), [y])
  {
    assert [x, y] == [x] + [y];
    JoinSnoc(h, [x], y);
    JoinOne(h, x);
    JoinOne(Join(h, [x]), y);
  }

  /** Each variable joins what it mentions to the keys so far. */
  lemma {:induction false} MergeOneKeys(d: Dict, x: Var, t: Text, box: Box, merge: bool, ones: int)
    requires MergeOne(d, x, t, box, merge, ones).Some?
    ensures KeysIn(MergeOne(d, x, t, box, merge, ones).value) == Join(KeysIn(d), Mentions(t, box, merge, x))
  {
    if merge && x.Value? {
      var d1 := Put(d, x, t.fields(x.n).value);
      PutKeys(d, x, t.fields(x.n).value);
      if box != NoBox {
        var p := Prefix(box, x.n);
        PutKeys(d1, p, if t.named(p).Some? then t.named(p).value else ones);
        JoinTwo(KeysIn(d), x, p);
      }
    } else if t.named(x).Some? {
      PutKeys(d, x, t.named(x).value);
    } else {
      JoinSame(KeysIn(d), []);
    }
  }

  function GivenIn(t: Text, merge: bool): Var -> bool {
    x => Given(t, merge, x)
  }

  /** Without boxing the keys are the variables that are given, in their order. */
  lemma {:induction false} PlainKeys(vars: seq<Var>, t: Text, box: Box, merge: bool, ones: int)
    requires Distinct(vars) && (box == NoBox || !merge) && Merged(vars, t, box, merge, ones).Some?
    ensures KeysIn(Merged(vars, t, box, merge, ones).value) == Select(vars, GivenIn(t, merge))
  {
    if vars != [] {
      var n := |vars| - 1;
      var d := Merged(vars[..n], t, box, merge, ones).value;
      assert vars == vars[..n] + [vars[n]];
      DistinctSnoc(vars[..n], vars[n]);
      PlainKeys(vars[..n], t, box, merge, ones);
      MergeOneKeys(d, vars[n], t, box, merge, ones);
      SelectHas(vars[..n], GivenIn(t, merge), vars[n]);
      JoinOne(KeysIn(d), vars[n]);
      JoinSame(KeysIn(d), []);
    }
  }

  /** With it the first value is followed by its prefix. */
  lemma {:induction false} BoxedKeys(vars: seq<Var>, t: Text, box: Box, merge: bool, ones: int)
    requires vars != [] && vars[0].Value? && merge && box != NoBox && Merged(vars, t, box, merge, ones).Some?
    ensures [vars[0], Prefix(box, vars[0].n)] <= KeysIn(Merged(vars, t, box, merge, ones).value)
  {
    var n := |vars| - 1;
    var d := Merged(vars[..n], t, box, merge, ones).value;
    MergeOneKeys(d, vars[n], t, box, merge, ones);
    if n == 0 {
      JoinTwo([], vars[0], Prefix(box, vars[0].n));
      JoinOne([], vars[0]);
      JoinOne([vars[0]], Prefix(box, vars[0].n));
    } else {
      BoxedKeys(vars[..n], t, box, merge, ones);
    }
  }

  /** A dictionary is made if the coverpoint names all variables but NaN prefixes. */
  lemma {:induction false} MergedIff(vars: seq<Var>, t: Text, box: Box, merge: bool, ones: int)
    ensures Merged(vars, t, box, merge, ones).Some?
            <==> forall k | 0 <= k < |vars| :: vars[k].NanPrefix? || Given(t, merge, vars[k])
  {
    if vars != [] {
      var n := |vars| - 1;
      MergedIff(vars[..n], t, box, merge, ones);
      assert forall k | 0 <= k < n :: vars[..n][k] == vars[k];
    }
  }

  lemma {:induction false} SelectAll(s: seq<Var>, keep: Var -> bool)
    ensures Select(s, keep) == s <==> forall k | 0 <= k < |s| :: keep(s[k])
  {
    if forall k | 0 <= k < |s| :: keep(s[k]) {
      if s != [] {
        var n := |s| - 1;
        assert forall k | 0 <= k < n :: s[..n][k] == s[k];
        SelectAll(s[..n], keep);
        assert s == s[..n] + [s[n]];
      }
    } else {
      var k :| 0 <= k < |s| && !keep(s[k]);
      SelectHas(s, keep, s[k]);
      assert s[k] in s;
    }
  }

  /** The variables of every format with floating-point values: a value first, prefixes not next to it. */
  predicate ValueFirst(vars: seq<Var>) {
    vars != [] && vars[0].Value? && (|vars| > 1 ==> !vars[1].NanPrefix? && !vars[1].SgnPrefix?)
  }

  /** Nothing is boxed, and the coverpoint names every variable. */
  ghost predicate Complete(vars: seq<Var>, t: Text, box: Box, merge: bool) {
    (box == NoBox || !merge) && forall k | 0 <= k < |vars| :: Given(t, merge, vars[k])
  }

  /**
    valcomb accepts the dictionary just when nothing is boxed and the coverpoint
    names every variable.  For narrow values in wide registers it accepts none.
   */
  lemma {:induction false} AcceptedIff(vars: seq<Var>, t: Text, box: Box, merge: bool, ones: int)
    requires Distinct(vars) && ValueFirst(vars)
    ensures var d := Merged(vars, t, box, merge, ones);
            (d.Some? && KeysIn(d.value) == vars) <==> Complete(vars, t, box, merge)
  {
    MergedIff(vars, t, box, merge, ones);
    var d := Merged(vars, t, box, merge, ones);
    if d.Some? {
      if box == NoBox || !merge {
        PlainKeys(vars, t, box, merge, ones);
        SelectAll(vars, GivenIn(t, merge));
      } else {
        BoxedKeys(vars, t, box, merge, ones);
        assert KeysIn(d.value)[1] == Prefix(box, vars[0].n);
      }
    }
  }

  // ---------------------------------------------------------------------
  // What valcomb makes of it
  // ---------------------------------------------------------------------

  /** The number of a variable, past the end if it is not among them. */
  function Place(vars: seq<Var>, x: Var): (r: nat)
    ensures if x in vars then r < |vars| && vars[r] == x else r == |vars|
  {
    if vars == [] then 0
    else if vars[0] == x then 0
    else 1 + Place(vars[1..], x)
  }

  function Numbered(vars: seq<Var>, d: Dict): (r: seq<(nat, int)>)
    ensures |r| == |d| && forall k | 0 <= k < |d| :: r[k] == (Place(vars, d[k].0), d[k].1)
  {
    seq(|d|, k requires 0 <= k < |d| => (Place(vars, d[k].0), d[k].1))
  }

  lemma {:induction false} NumberedKeys(vars: seq<Var>, d: Dict)
    requires Distinct(vars)
    ensures Keys(Numbered(vars, d)) == Vars(|vars|) <==> KeysIn(d) == vars
  {
    if Keys(Numbered(vars, d)) == Vars(|vars|) {
      forall k | 0 <= k < |d| ensures KeysIn(d)[k] == vars[k] {
        assert Keys(Numbered(vars, d))[k] == Vars(|vars|)[k];
      }
      assert |d| == |vars|;
    }
    if KeysIn(d) == vars {
      forall k | 0 <= k < |d| ensures Keys(Numbered(vars, d))[k] == k {
        assert vars[k] in vars && vars[Place(vars, vars[k])] == vars[k];
      }
    }
  }

  /** The coverpoints' dictionaries are those of merge_fields_f. */
  ghost predicate MergedFrom(ps: Points, i: nat, vars: seq<Var>, t: Text, box: Box, merge: bool, ones: int) {
    && ps.isFext && ps.nosat(i)
    && var d := Merged(vars, t, box, merge, ones);
       ps.merged(i) == if d.None? then None else Some(Numbered(vars, d.value))
  }

  /**
    In what valcomb returns, such a coverpoint has a tuple of its own only if it is
    complete, and then is covered; and its tuple holds just the values given.
   */
  lemma {:induction false} CoveredIfComplete(ps: Points, domains: seq<seq<int>>, tuples: seq<Tuple>, i: nat,
                                             vars: seq<Var>, t: Text, box: Box, merge: bool, ones: int)
    requires Cover(ps, domains, [], tuples) && i < ps.n && |domains| == |vars|
    requires Distinct(vars) && ValueFirst(vars) && MergedFrom(ps, i, vars, t, box, merge, ones)
    ensures !Complete(vars, t, box, merge) ==> forall k | 0 <= k < |tuples| :: tuples[k].own != i
    ensures Complete(vars, t, box, merge) ==> exists k :: 0 <= k < |tuples| && Names(tuples[k], i)
    ensures forall k | 0 <= k < |tuples| && tuples[k].own == i :: HoldsGiven(tuples[k].values, vars, t, merge)
  {
    AcceptedIff(vars, t, box, merge, ones);
    var d := Merged(vars, t, box, merge, ones);
    if d.Some? {
      NumberedKeys(vars, d.value);
      MergedValues(vars, t, box, merge, ones);
    }
    if Complete(vars, t, box, merge) {
      assert Settled(ps, domains, tuples, i);
      assert Spelled(ps, i, |vars|, ValuesIn(d.value));
    }
    forall k | 0 <= k < |tuples| && tuples[k].own == i
      ensures Complete(vars, t, box, merge) && HoldsGiven(tuples[k].values, vars, t, merge)
    {
      assert Honest(ps, domains, tuples[k]);
      assert Spelled(ps, i, |vars|, tuples[k].values);
      assert Complete(vars, t, box, merge);
      GivenValues(vars, t, merge, ones, d.value, tuples[k].values);
    }
  }

  lemma {:induction false} GivenValues(vars: seq<Var>, t: Text, merge: bool, ones: int, d: Dict, values: seq<int>)
    requires Valued(d, t, merge, ones) && KeysIn(d) == vars && |values| == |vars|
    requires forall k | 0 <= k < |vars| :: Given(t, merge, vars[k]) && values[k] == d[k].1
    ensures HoldsGiven(values, vars, t, merge)
  {
    forall k | 0 <= k < |vars|
      ensures Some(values[k]) == if merge && vars[k].Value? then t.fields(vars[k].n) else t.named(vars[k])
    {
      assert d[k].0 == vars[k];
    }
  }

  /** In the order of vars: the merged word of each value to be merged, and what is named for the others. */
  ghost predicate HoldsGiven(values: seq<int>, vars: seq<Var>, t: Text, merge: bool) {
    && |values| == |vars|
    && forall k | 0 <= k < |vars| ::
         Some(values[k]) == if merge && vars[k].Value? then t.fields(vars[k].n) else t.named(vars[k])
  }

  function ValuesIn(d: Dict): (r: seq<int>)
    ensures |r| == |d| && forall k | 0 <= k < |d| :: r[k] == d[k].1
  {
    seq(|d|, k requires 0 <= k < |d| => d[k].1)
  }
}
