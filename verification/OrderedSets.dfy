/**
  The ordered sets riscv_ctg works with: lists without repetition, in the order in
  which their elements were added.  An intersection keeps the order of its left
  operand, and two ordered sets are equal only if their orders are.
 */
module OrderedSets {

  ghost predicate Distinct<T>(s: seq<T>) {
    forall i, j | 0 <= i < j < |s| :: s[i] != s[j]
  }

  /** x stands before y. */
  ghost predicate Before<T>(s: seq<T>, x: T, y: T) {
    exists i, j :: 0 <= i < j < |s| && s[i] == x && s[j] == y
  }

  /** The elements to keep, in their order. */
  function Select<T>(s: seq<T>, keep: T -> bool): seq<T> {
    if s == [] then []
    else
      var n := |s| - 1;
      if keep(s[n]) then Select(s[..n], keep) + [s[n]] else Select(s[..n], keep)
  }

  lemma {:induction false} SelectHas<T>(s: seq<T>, keep: T -> bool, x: T)
    ensures x in Select(s, keep) <==> x in s && keep(x)
  {
    if s != [] {
      var n := |s| - 1;
      SelectHas(s[..n], keep, x);
      assert x in s <==> x in s[..n] || x == s[n];
    }
  }

  function In<T(==)>(b: seq<T>): T -> bool { x => x in b }

  function NotIn<T(==)>(a: seq<T>): T -> bool { x => x !in a }

  /** a & b */
  function Meet<T(==)>(a: seq<T>, b: seq<T>): seq<T> {
    Select(a, In(b))
  }

  /** a |= b */
  function Join<T(==)>(a: seq<T>, b: seq<T>): seq<T> {
    a + Select(b, NotIn(a))
  }

  lemma {:induction false} MeetHas<T(!new)>(a: seq<T>, b: seq<T>)
    ensures forall x :: x in Meet(a, b) <==> x in a && x in b
  {
    forall x ensures x in Meet(a, b) <==> x in a && x in b { SelectHas(a, In(b), x); }
  }

  lemma {:induction false} JoinHas<T(!new)>(a: seq<T>, b: seq<T>)
    ensures forall x :: x in Join(a, b) <==> x in a || x in b
  {
    forall x ensures x in Join(a, b) <==> x in a || x in b { SelectHas(b, NotIn(a), x); }
  }

  lemma {:induction false} BeforeSnoc<T(!new)>(s: seq<T>, z: T, x: T, y: T)
    ensures Before(s + [z], x, y) <==> Before(s, x, y) || (x in s && y == z)
  {
    var t := s + [z];
    if i, j :| 0 <= i < j < |t| && t[i] == x && t[j] == y {
      assert s[i] == x && (j < |s| ==> s[j] == y);
    }
    if i, j :| 0 <= i < j < |s| && s[i] == x && s[j] == y {
      assert t[i] == x && t[j] == y;
    }
    if x in s && y == z {
      var i :| 0 <= i < |s| && s[i] == x;
      assert t[i] == x && t[|s|] == y;
    }
  }

  lemma {:induction false} BeforeIn<T(!new)>(s: seq<T>, x: T, y: T)
    requires Before(s, x, y)
    ensures x in s && y in s
  {
  }

  /** Of two elements one stands before the other, and never both ways. */
  lemma {:induction false} BeforeEither<T(!new)>(s: seq<T>, x: T, y: T)
    requires Distinct(s)
    ensures !(Before(s, x, y) && Before(s, y, x)) && (Before(s, x, y) ==> x != y)
    ensures x in s && y in s && x != y ==> Before(s, x, y) || Before(s, y, x)
  {
    if x in s && y in s && x != y {
      var i :| 0 <= i < |s| && s[i] == x;
      var j :| 0 <= j < |s| && s[j] == y;
      assert i < j || j < i;
    }
  }

  lemma {:induction false} DistinctSnoc<T(!new)>(s: seq<T>, z: T)
    ensures Distinct(s + [z]) <==> Distinct(s) && z !in s
  {
    var t := s + [z];
    if Distinct(t) {
      forall i, j | 0 <= i < j < |s| ensures s[i] != s[j] { assert t[i] != t[j]; }
      forall i | 0 <= i < |s| ensures s[i] != z { assert t[i] != t[|s|]; }
    }
  }

  lemma {:induction false} SelectSnoc<T(!new)>(s: seq<T>, z: T, keep: T -> bool)
    ensures Select(s + [z], keep) == Select(s, keep) + if keep(z) then [z] else []
  {
    assert (s + [z])[..|s|] == s;
  }

  /** Selecting keeps order. */
  lemma {:induction false} SelectOrder<T(!new)>(s: seq<T>, keep: T -> bool, x: T, y: T)
    ensures Before(Select(s, keep), x, y) <==> Before(s, x, y) && keep(x) && keep(y)
  {
    if s != [] {
      var n := |s| - 1;
      assert s == s[..n] + [s[n]];
      SelectOrder(s[..n], keep, x, y);
      BeforeSnoc(s[..n], s[n], x, y);
      BeforeSnoc(Select(s[..n], keep), s[n], x, y);
      SelectHas(s[..n], keep, x);
      if Before(s[..n], x, y) { BeforeIn(s[..n], x, y); }
    }
  }

  lemma {:induction false} SelectDistinct<T(!new)>(s: seq<T>, keep: T -> bool)
    requires Distinct(s)
    ensures Distinct(Select(s, keep))
  {
    if s != [] {
      var n := |s| - 1;
      assert s == s[..n] + [s[n]];
      DistinctSnoc(s[..n], s[n]);
      SelectDistinct(s[..n], keep);
      SelectHas(s[..n], keep, s[n]);
      DistinctSnoc(Select(s[..n], keep), s[n]);
    }
  }

  lemma {:induction false} Appended<T(!new)>(a: seq<T>, b: seq<T>)
    requires Distinct(a) && Distinct(b) && forall x | x in b :: x !in a
    ensures Distinct(a + b)
    ensures forall x, y :: Before(a + b, x, y) <==> Before(a, x, y) || (x in a && y in b) || Before(b, x, y)
  {
    if b == [] {
      assert a + b == a;
    } else {
      var n := |b| - 1;
      assert b == b[..n] + [b[n]] && a + b == (a + b[..n]) + [b[n]];
      DistinctSnoc(b[..n], b[n]);
      Appended(a, b[..n]);
      DistinctSnoc(a + b[..n], b[n]);
      forall x, y
        ensures Before(a + b, x, y) <==> Before(a, x, y) || (x in a && y in b) || Before(b, x, y)
      {
        BeforeSnoc(a + b[..n], b[n], x, y);
        BeforeSnoc(b[..n], b[n], x, y);
      }
    }
  }

  /** Joining keeps what was there in front, and the new elements in their order. */
  lemma {:induction false} JoinOrder<T(!new)>(a: seq<T>, b: seq<T>)
    requires Distinct(a) && Distinct(b)
    ensures Distinct(Join(a, b))
    ensures forall x, y :: Before(Join(a, b), x, y) <==>
                             || Before(a, x, y) || (x in a && y in b && y !in a)
                             || (Before(b, x, y) && x !in a && y !in a)
  {
    SelectDistinct(b, NotIn(a));
    forall x ensures x in Select(b, NotIn(a)) <==> x in b && x !in a { SelectHas(b, NotIn(a), x); }
    Appended(a, Select(b, NotIn(a)));
    forall x, y
      ensures Before(Select(b, NotIn(a)), x, y) <==> Before(b, x, y) && x !in a && y !in a
    {
      SelectOrder(b, NotIn(a), x, y);
    }
  }

  lemma {:induction false} HasFirst<T>(s: seq<T>)
    ensures s != [] ==> s[0] in s
  {
  }

  /** Lists with the same elements in the same order are the same. */
  lemma {:induction false} SameOrder<T(!new)>(a: seq<T>, b: seq<T>)
    requires Distinct(a) && Distinct(b) && forall x :: x in a <==> x in b
    requires forall x, y | Before(a, x, y) :: Before(b, x, y)
    ensures a == b
    decreases |a|
  {
    if a == [] {
      HasFirst(b);
    } else {
      var n, m := |a| - 1, |b| - 1;
      assert a[n] in b;
      var z := a[n];
      assert a == a[..n] + [z] && b == b[..m] + [b[m]];
      DistinctSnoc(a[..n], z);
      DistinctSnoc(b[..m], b[m]);
      assert b[m] in b && b[m] in a;
      BeforeSnoc(a[..n], z, b[m], z);
      BeforeSnoc(b[..m], b[m], z, b[m]);
      BeforeEither(b, b[m], z);
      assert b[m] == z;
      forall x ensures x in a[..n] <==> x in b[..m] {
        assert x in a <==> x in a[..n] || x == z;
        assert x in b <==> x in b[..m] || x == z;
      }
      forall x, y | Before(a[..n], x, y) ensures Before(b[..m], x, y) {
        BeforeSnoc(a[..n], z, x, y);
        BeforeSnoc(b[..m], z, x, y);
        BeforeIn(a[..n], x, y);
      }
      SameOrder(a[..n], b[..m]);
    }
  }

  /** Meeting b with a gives b again only if a has all of b, and in the same order. */
  lemma {:induction false} MeetIff<T(!new)>(a: seq<T>, b: seq<T>)
    requires Distinct(a) && Distinct(b)
    ensures Meet(a, b) == b <==> (forall x | x in b :: x in a) && forall x, y | Before(b, x, y) :: Before(a, x, y)
  {
    var r := Meet(a, b);
    SelectDistinct(a, In(b));
    MeetHas(a, b);
    forall x, y ensures Before(r, x, y) <==> Before(a, x, y) && x in b && y in b {
      SelectOrder(a, In(b), x, y);
    }
    if (forall x | x in b :: x in a) && forall x, y | Before(b, x, y) :: Before(a, x, y) {
      forall x, y | Before(b, x, y) ensures Before(r, x, y) { BeforeIn(b, x, y); }
      SameOrder(b, r);
    }
    if r == b {
      forall x | x in b ensures x in a { assert x in r; }
    }
  }

  lemma {:induction false} JoinSnoc<T(!new)>(a: seq<T>, b: seq<T>, z: T)
    ensures Join(a, b + [z]) == if z in a then Join(a, b) else Join(a, b) + [z]
  {
    SelectSnoc(b, z, NotIn(a));
  }

  lemma {:induction false} JoinOne<T(!new)>(a: seq<T>, z: T)
    ensures Join(a, [z]) == if z in a then a else a + [z]
  {
    assert [] + [z] == [z];
    JoinSnoc(a, [], z);
  }

  lemma {:induction false} JoinLonger<T>(a: seq<T>, b: seq<T>, x: T)
    requires x in b && x !in a
    ensures |a| < |Join(a, b)|
  {
    SelectHas(b, NotIn(a), x);
  }

  /** Joining what is there already adds nothing. */
  lemma {:induction false} JoinSame<T(!new)>(a: seq<T>, b: seq<T>)
    requires forall x | x in b :: x in a
    ensures Join(a, b) == a
  {
    var more := Select(b, NotIn(a));
    HasFirst(more);
    if more != [] { SelectHas(b, NotIn(a), more[0]); }
  }

  lemma {:induction false} DistinctSize<T>(s: seq<T>, all: set<T>)
    requires Distinct(s) && forall x | x in s :: x in all
    ensures |s| <= |all|
  {
    if s != [] {
      var n := |s| - 1;
      assert s == s[..n] + [s[n]];
      forall i, j | 0 <= i < j < n ensures s[..n][i] != s[..n][j] {
      }
      forall x | x in s[..n] ensures x in all - {s[n]} {
        assert s[n] !in s[..n];
      }
      DistinctSize(s[..n], all - {s[n]});
    }
  }
}
