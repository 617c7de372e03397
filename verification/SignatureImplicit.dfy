/**
  Templates whose macro names no offset, RVTEST_SIGUPD_F and RVTEST_SIGUPD_FID in
  env/arch-test/test_macros.h: the symbol `offset` alone says where their words
  go, and the generator's offsets only say when a new RVTEST_SIGBASE comes.
 */
module SignatureImplicit {
  import opened Wrappers
  import opened Arithmetic
  import opened RegisterAllocation
  import opened RegisterPasses
  import opened SignatureUpdate

  /**
    What the templates have in common: w words a unit apart, tested for test bytes;
    the generator counts in size bytes.
   */
  datatype Macro = Macro(unit: nat, test: nat, fix: nat, w: nat, size: nat, stride: nat)

  ghost predicate Fitting(p: Macro) {
    && Width(p.unit) && p.test > 0 && p.fix > 0 && p.w > 0
    && (p.w * p.unit) % p.test == 0 && p.w * p.unit <= p.stride * p.size
  }

  /** RVTEST_SIGUPD_F steps by SIGALIGN; RVTEST_SIGUPD_FID by REGWIDTH, with SIGALIGN the same or twice as much. */
  lemma {:induction false} BothFit(regWidth: nat, sigAlign: nat, stride: nat)
    requires (regWidth == 4 || regWidth == 8) && (sigAlign == regWidth || sigAlign == 2 * regWidth) && stride >= 2
    ensures Fitting(Macro(sigAlign, sigAlign, sigAlign, 2, sigAlign, stride))
    ensures Fitting(Macro(regWidth, sigAlign, sigAlign, 2, sigAlign, stride))
  {
    assert stride * sigAlign == (stride - 2) * sigAlign + 2 * sigAlign;
    if sigAlign == 4 {
    } else if sigAlign == 8 {
    } else {
      assert sigAlign == 16;
    }
  }

  ghost predicate Uses(es: seq<Entry>, p: Macro) {
    forall k | 0 <= k < |es| :: es[k].test == p.test && |es[k].vs| == p.w
  }

  /** Offsets as swreg gives them. */
  predicate RunsAt(es: seq<Entry>, k: nat, p: Macro)
    requires k < |es|
  {
    es[k].offset * p.size <= 2047 && (es[k].offset == 0 || (k > 0 && Continues(es[k - 1], es[k], p.stride)))
  }

  ghost predicate Runs(es: seq<Entry>, p: Macro) {
    forall k | 0 <= k < |es| :: RunsAt(es, k, p)
  }

  /** RVTEST_SIGBASE wherever the offset is 0, and the macro without an offset. */
  function ImplicitStep(g: Sig, p: Macro, e: Entry): Sig
    requires Fitting(p) && |e.vs| == p.w
  {
    Update(if e.offset == 0 then SigBase(g, e.address) else g, Shape(p.unit, p.test, p.fix), None, e.vs)
  }

  function Implicit(g: Sig, p: Macro, es: seq<Entry>): Sig
    requires Fitting(p) && Uses(es, p)
  {
    if es == [] then g else ImplicitStep(Implicit(g, p, es[..|es| - 1]), p, es[|es| - 1])
  }

  /** How far into its region the k-th entry starts: a macro's words for each entry since the label. */
  function Filled(es: seq<Entry>, k: nat, p: Macro): nat
    requires k < |es|
  {
    if k == 0 || es[k].offset == 0 then 0 else Filled(es, k - 1, p) + p.w * p.unit
  }

  function ImplicitSlots(es: seq<Entry>, p: Macro): seq<(int, int)> {
    if es == [] then []
    else
      var n := |es| - 1;
      ImplicitSlots(es[..n], p) + Words(es[n].address + Filled(es, n, p), p.unit, es[n].vs)
  }

  lemma {:induction false} FilledPrefix(es: seq<Entry>, n: nat, k: nat, p: Macro)
    requires k < n <= |es|
    ensures Filled(es[..n], k, p) == Filled(es, k, p)
    decreases k
  {
    if k > 0 { FilledPrefix(es, n, k - 1, p); }
  }

  /** An entry starts no further into its region than its slot, on a tested boundary, and ends inside its slot's end. */
  lemma {:induction false} FilledBound(es: seq<Entry>, k: nat, p: Macro)
    requires k < |es| && Fitting(p) && Runs(es, p)
    ensures Filled(es, k, p) <= es[k].offset * p.size <= 2047 && Filled(es, k, p) % p.test == 0
    ensures Filled(es, k, p) + p.w * p.unit <= (es[k].offset + p.stride) * p.size
    decreases k
  {
    assert RunsAt(es, k, p);
    if k > 0 && es[k].offset != 0 {
      FilledBound(es, k - 1, p);
      Multiples(Filled(es, k - 1, p), p.w * p.unit, p.test);
    } else {
      assert 0 % p.test == 0 by { ModSigned(0, 0, p.test); }
      NonNegative(es[k].offset, p.size);
    }
    Distribute(es[k].offset, p.stride, p.size);
  }

  lemma {:induction false} NonNegative(a: nat, b: nat)
    ensures a * b >= 0
  {
  }

  lemma {:induction false} Multiples(a: nat, b: nat, d: nat)
    requires d > 0 && a % d == 0 && b % d == 0
    ensures (a + b) % d == 0
  {
    ModAdd(a, b, d);
  }

  /** Before the next entry of a region the base is its label still, unless no such entry can come. */
  ghost predicate Stands(g: Sig, e: Entry, at: nat, p: Macro) {
    (g.base == e.address && g.offset == at + p.w * p.unit) || (e.offset + p.stride) * p.size > 2047
  }

  lemma {:induction false} ImplicitLands(g: Sig, p: Macro, e: Entry, at: nat)
    requires Fitting(p) && |e.vs| == p.w && at <= 2047 && at % p.test == 0
    requires at + p.w * p.unit <= (e.offset + p.stride) * p.size
    requires if e.offset == 0 then at == 0 else g.base == e.address && g.offset == at
    ensures var after := ImplicitStep(g, p, e);
            Landed(g, after, Words(e.address + at, p.unit, e.vs)) && Stands(after, e, at, p)
  {
    var q := Shape(p.unit, p.test, p.fix);
    var g1 := if e.offset == 0 then SigBase(g, e.address) else g;
    assert Prepare(g1, q, None) == g1;
    StoreInPlace(g1, q, e.vs);
    if at + p.w * p.unit <= 2047 {
      StoreKeepsBase(g1, q, e.vs, p.w);
    }
  }

  lemma {:induction false} RunsPrefix(es: seq<Entry>, p: Macro)
    requires es != [] && Runs(es, p) && Uses(es, p)
    ensures var n := |es| - 1; Runs(es[..n], p) && Uses(es[..n], p) && RunsAt(es, n, p)
  {
    var before := es[..|es| - 1];
    forall k | 0 <= k < |before| ensures RunsAt(before, k, p) { assert RunsAt(es, k, p); }
  }

  lemma {:induction false} LandsAfter(g: Sig, before: Sig, slots: seq<(int, int)>, after: Sig, more: seq<(int, int)>)
    requires Landed(g, before, slots) && Landed(before, after, more)
    ensures Landed(g, after, slots + more)
  {
  }

  lemma {:induction false} ImplicitNext(g: Sig, before: Sig, slots: seq<(int, int)>, p: Macro, es: seq<Entry>, n: nat)
    requires n < |es| && Fitting(p) && Uses(es, p) && Runs(es, p) && Landed(g, before, slots)
    requires n > 0 ==> Stands(before, es[n - 1], Filled(es, n - 1, p), p)
    ensures var after := ImplicitStep(before, p, es[n]);
            Landed(g, after, slots + Words(es[n].address + Filled(es, n, p), p.unit, es[n].vs))
                && Stands(after, es[n], Filled(es, n, p), p)
  {
    FilledBound(es, n, p);
    assert RunsAt(es, n, p);
    ImplicitLands(before, p, es[n], Filled(es, n, p));
    LandsAfter(g, before, slots, ImplicitStep(before, p, es[n]),
        Words(es[n].address + Filled(es, n, p), p.unit, es[n].vs));
  }

  /** What a run of entries has done, and where it stands. */
  ghost predicate Arrived(g: Sig, after: Sig, slots: seq<(int, int)>, p: Macro, es: seq<Entry>) {
    Landed(g, after, slots) && (es != [] ==> Stands(after, es[|es| - 1], Filled(es, |es| - 1, p), p))
  }

  lemma {:induction false} ArrivedNext(g: Sig, before: Sig, slots: seq<(int, int)>, p: Macro, es: seq<Entry>,
                                       front: seq<Entry>)
    requires es != [] && front == es[..|es| - 1] && Fitting(p) && Uses(es, p) && Runs(es, p)
             && Arrived(g, before, slots, p, front)
    ensures var n := |es| - 1;
            Arrived(g, ImplicitStep(before, p, es[n]),
                slots + Words(es[n].address + Filled(es, n, p), p.unit, es[n].vs), p, es)
  {
    var n := |es| - 1;
    if n > 0 {
      FilledPrefix(es, n, n - 1, p);
    }
    ImplicitNext(g, before, slots, p, es, n);
  }

  /** Every word of a run lands in its own region, macro after macro, and every store is encodable. */
  lemma {:induction false} ImplicitInPlace(g: Sig, p: Macro, es: seq<Entry>)
    requires Fitting(p) && Uses(es, p) && Runs(es, p)
    ensures Arrived(g, Implicit(g, p, es), ImplicitSlots(es, p), p, es)
  {
    if es != [] {
      var front := es[..|es| - 1];
      RunsPrefix(es, p);
      ImplicitInPlace(g, p, front);
      ArrivedNext(g, Implicit(g, p, front), ImplicitSlots(front, p), p, es, front);
    }
  }

  /** The entries of a list: offsets as given, labels that change only where the offset is 0. */
  ghost predicate EntriesFor(es: seq<Entry>, s: seq<Instr>) {
    && |es| == |s|
    && (forall k | 0 <= k < |s| :: es[k].offset == s[k].offset)
    && (forall k | 0 < k < |s| :: es[k].offset != 0 ==> es[k].address == es[k - 1].address)
  }

  /** Inside its region each entry starts no further on than its slot, and ends inside its slot's end. */
  ghost predicate InSlots(es: seq<Entry>, p: Macro) {
    forall k | 0 <= k < |es| ::
      Filled(es, k, p) <= es[k].offset * p.size && Filled(es, k, p) + p.w * p.unit <= (es[k].offset + p.stride) * p.size
  }

  /** So it is for every list swreg allocates. */
  lemma {:induction false} GeneratedImplicit(g: Sig, p: Macro, es: seq<Entry>, s: seq<Instr>, c: Config)
    requires Fresh(s, c) && Fitting(p) && Uses(es, p) && p.size == c.sigSize && p.stride == c.sigStride
    requires EntriesFor(es, AfterSw(s, c))
    ensures Landed(g, Implicit(g, p, es), ImplicitSlots(es, p)) && InSlots(es, p)
  {
    forall k | 0 <= k < |es| ensures RunsAt(es, k, p) {
      SwBound(s, c, k);
      SwPick(s, c, k);
      if k > 0 { SwRunsOn(s, c, k); }
    }
    forall k | 0 <= k < |es|
      ensures Filled(es, k, p) <= es[k].offset * p.size
              && Filled(es, k, p) + p.w * p.unit <= (es[k].offset + p.stride) * p.size
    {
      FilledBound(es, k, p);
    }
    ImplicitInPlace(g, p, es);
  }
}
