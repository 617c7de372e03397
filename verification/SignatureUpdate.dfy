/**
  The signature macros of env/arch-test/test_macros.h: RVTEST_SIGBASE, CHK_OFFSET
  and the RVTEST_SIGUPD family.  The assembler symbol `offset` follows the stores;
  when it gets too large for an immediate, code moves the base register and the
  symbol goes back by as much.
 */
module SignatureUpdate {
  import opened Wrappers
  import opened RegisterAllocation
  import opened RegisterPasses
  import opened Arithmetic

  /** Base register, symbol, the (address, value) pairs stored so far, and whether every store so far was encodable. */
  datatype Sig = Sig(base: int, offset: nat, stored: seq<(int, int)>, assembles: bool)

  /** A macro's unit of stepping, the alignment it tests and the alignment it then sets; all are powers of two. */
  datatype Shape = Shape(unit: nat, test: nat, fix: nat)

  ghost predicate Sane(p: Shape) {
    p.test > 0 && p.fix > 0 && 0 < p.unit <= 2048
  }

  function SigBase(g: Sig, address: int): Sig {
    g.(base := address, offset := 0)
  }

  function ChkOffset(g: Sig, unit: nat, preInc: bool): Sig
    requires unit <= 2048
  {
    var o := if preInc then g.offset + unit else g.offset;
    if o >= 2048 then g.(base := g.base + 2048 - unit, offset := o - (2048 - unit)) else g.(offset := o)
  }

  /** SREG or FSREG: the immediate must be below 2048. */
  function Sreg(g: Sig, v: int): Sig {
    g.(stored := g.stored + [(g.base + g.offset, v)], assembles := g.assembles && g.offset < 2048)
  }

  function StoreRest(g: Sig, unit: nat, vs: seq<int>): Sig
    requires unit <= 2048
  {
    if vs == [] then g
    else
      var before := StoreRest(g, unit, vs[..|vs| - 1]);
      Sreg(ChkOffset(before, unit, true), vs[|vs| - 1])
  }

  /** `.set offset` from the optional argument, and the alignment repair: & binds tighter than + in GNU as. */
  function Prepare(g: Sig, p: Shape, newOffset: Option<nat>): Sig
    requires Sane(p)
  {
    var g1 := if newOffset.Some? then g.(offset := newOffset.value) else g;
    if g1.offset % p.test != 0 then g1.(offset := g1.offset % p.fix + p.fix) else g1
  }

  function Store(g: Sig, p: Shape, vs: seq<int>): Sig
    requires Sane(p) && |vs| > 0
  {
    var g1 := StoreRest(Sreg(ChkOffset(g, p.unit, false), vs[0]), p.unit, vs[1..]);
    g1.(offset := g1.offset + p.unit)
  }

  function Update(g: Sig, p: Shape, newOffset: Option<nat>, vs: seq<int>): Sig
    requires Sane(p) && |vs| > 0
  {
    Store(Prepare(g, p, newOffset), p, vs)
  }

  // ---------------------------------------------------------------------
  // The macros
  // ---------------------------------------------------------------------

  /** regWidth is REGWIDTH in bytes and sigAlign SIGALIGN. */
  class Signature {
    const regWidth: nat
    const sigAlign: nat
    var base: int
    var offset: nat
    var stored: seq<(int, int)>
    var assembles: bool

    constructor (regWidth: nat, sigAlign: nat)
      ensures this.regWidth == regWidth && this.sigAlign == sigAlign && Now() == Sig(0, 0, [], true)
    {
      this.regWidth, this.sigAlign := regWidth, sigAlign;
      base, offset, stored, assembles := 0, 0, [], true;
    }

    ghost predicate Valid() {
      0 < regWidth <= sigAlign <= 2048
    }

    function Now(): Sig
      reads this
    {
      Sig(base, offset, stored, assembles)
    }

    method RvtestSigbase(address: int)
      modifies this
      ensures Position(Now()) == address && Now() == SigBase(old(Now()), address)
    {
      base := address;
      offset := 0;
    }

    method Chk(size: nat, preInc: bool)
      requires size <= 2048
      modifies this
      ensures var step := if preInc then size else 0;
              && Position(Now()) == old(Position(Now())) + step
              && (offset < 2048 <==> old(offset) + step < 4096 - size)
              && (base != old(base) ==> old(offset) + step >= 2048)
      ensures Now() == ChkOffset(old(Now()), size, preInc)
    {
      if preInc {
        offset := offset + size;
      }
      if offset >= 2048 {
        base := base + (2048 - size);
        offset := offset - (2048 - size);
      }
    }

    method StoreAt(v: int)
      modifies this
      ensures Now() == Sreg(old(Now()), v)
    {
      stored := stored + [(base + offset, v)];
      assembles := assembles && offset < 2048;
    }

    method SetOffset(newOffset: Option<nat>, test: nat)
      requires test > 0 && Valid()
      modifies this
      ensures Now() == Prepare(old(Now()), Shape(regWidth, test, sigAlign), newOffset)
    {
      if newOffset.Some? {
        offset := newOffset.value;
      }
      if offset % test != 0 {
        offset := offset % sigAlign + sigAlign;
      }
    }

    method Sigupd(r: int, newOffset: Option<nat>)
      requires Valid()
      modifies this
      ensures Now() == Update(old(Now()), Shape(regWidth, 1, sigAlign), newOffset, [r])
    {
      if newOffset.Some? {
        offset := newOffset.value;
      }
      Chk(regWidth, false);
      StoreAt(r);
      offset := offset + regWidth;
    }

    method SigupdF(r: int, f: int, newOffset: Option<nat>)
      requires Valid()
      modifies this
      ensures Now() == Update(old(Now()), Shape(sigAlign, sigAlign, sigAlign), newOffset, [r, f])
    {
      SetOffset(newOffset, sigAlign);
      Chk(sigAlign, false);
      StoreAt(r);
      ghost var g := Now();
      Chk(sigAlign, true);
      StoreAt(f);
      StoreOne(g, sigAlign, f);
      offset := offset + sigAlign;
    }

    method SigupdFid(r: int, f: int, newOffset: Option<nat>)
      requires Valid()
      modifies this
      ensures Now() == Update(old(Now()), Shape(regWidth, sigAlign, sigAlign), newOffset, [r, f])
    {
      SetOffset(newOffset, sigAlign);
      Chk(regWidth, false);
      StoreAt(r);
      ghost var g := Now();
      Chk(regWidth, true);
      StoreAt(f);
      StoreOne(g, regWidth, f);
      offset := offset + regWidth;
    }

    /** RVTEST_SIGUPD_PK; RVTEST_SIGUPD_P64 is the same with the upper half for the flag. */
    method SigupdPk(r: int, f: int, newOffset: Option<nat>)
      requires Valid()
      modifies this
      ensures Now() == Update(old(Now()), Shape(regWidth, regWidth, sigAlign), newOffset, [r, f])
    {
      SetOffset(newOffset, regWidth);
      Chk(regWidth, false);
      StoreAt(r);
      ghost var g := Now();
      Chk(regWidth, true);
      StoreAt(f);
      StoreOne(g, regWidth, f);
      offset := offset + regWidth;
    }

    method SigupdPk64(r: int, hi: int, f: int, newOffset: Option<nat>)
      requires Valid()
      modifies this
      ensures Now() == Update(old(Now()), Shape(regWidth, regWidth, sigAlign), newOffset, [r, hi, f])
    {
      SetOffset(newOffset, regWidth);
      Chk(regWidth, false);
      StoreAt(r);
      ghost var g := Now();
      Chk(regWidth, true);
      StoreAt(hi);
      Chk(regWidth, true);
      StoreAt(f);
      StoreTwo(g, regWidth, hi, f);
      offset := offset + regWidth;
    }
  }

  lemma {:induction false} StoreOne(g: Sig, unit: nat, v: int)
    requires unit <= 2048
    ensures StoreRest(g, unit, [v]) == Sreg(ChkOffset(g, unit, true), v)
  {
  }

  lemma {:induction false} StoreTwo(g: Sig, unit: nat, v: int, w: int)
    requires unit <= 2048
    ensures StoreRest(g, unit, [v, w]) == Sreg(ChkOffset(Sreg(ChkOffset(g, unit, true), v), unit, true), w)
  {
    assert [v, w][..1] == [v];
    StoreOne(g, unit, v);
  }

  // ---------------------------------------------------------------------
  // Rebasing never moves a store
  // ---------------------------------------------------------------------

  function Words(address: int, unit: nat, vs: seq<int>): seq<(int, int)> {
    seq(|vs|, j requires 0 <= j < |vs| => (address + j * unit, vs[j]))
  }

  function Position(g: Sig): int {
    g.base + g.offset
  }

  /** CHK_OFFSET keeps base + offset, but for the step it was asked to make. */
  lemma {:induction false} ChkKeepsPosition(g: Sig, unit: nat, preInc: bool)
    requires unit <= 2048
    ensures Position(ChkOffset(g, unit, preInc)) == Position(g) + if preInc then unit else 0
    ensures ChkOffset(g, unit, preInc).offset < 2048 <==> g.offset + (if preInc then unit else 0) < 4096 - unit
  {
  }

  /** From here the values go to consecutive places, and the symbol ends up within one step of the limit. */
  ghost predicate InPlace(g: Sig, after: Sig, unit: nat, vs: seq<int>) {
    && after.stored == g.stored + Words(Position(g), unit, vs)
    && Position(after) == Position(g) + |vs| * unit
    && after.assembles == g.assembles
    && after.offset < 2048 + unit
  }

  lemma {:induction false} WordsSnoc(address: int, unit: nat, vs: seq<int>, v: int)
    ensures Words(address, unit, vs + [v]) == Words(address, unit, vs) + [(address + |vs| * unit, v)]
    ensures |vs + [v]| * unit == |vs| * unit + unit
  {
  }

  lemma {:induction false} WordsJoin(address: int, unit: nat, vs: seq<int>, ws: seq<int>)
    ensures Words(address, unit, vs + ws) == Words(address, unit, vs) + Words(address + |vs| * unit, unit, ws)
    ensures |vs + ws| * unit == |vs| * unit + |ws| * unit
  {
  }

  lemma {:induction false} Distribute(a: nat, b: nat, unit: nat)
    ensures (a + b) * unit == a * unit + b * unit
  {
  }

  /** One more step back from the position: where the value last stored is. */
  lemma {:induction false} StoreRestInPlace(g: Sig, unit: nat, vs: seq<int>)
    requires 0 < unit <= 1024 && g.offset < 2048
    ensures var after := StoreRest(g, unit, vs);
            && after.stored == g.stored + Words(Position(g) + unit, unit, vs)
            && Position(after) == Position(g) + |vs| * unit
            && after.assembles == g.assembles && after.offset < 2048
  {
    if vs != [] {
      var rest, v := vs[..|vs| - 1], vs[|vs| - 1];
      StoreRestInPlace(g, unit, rest);
      assert vs == rest + [v];
      WordsSnoc(Position(g) + unit, unit, rest, v);
      ChkKeepsPosition(StoreRest(g, unit, rest), unit, true);
    }
  }

  lemma {:induction false} StoreInPlace(g: Sig, p: Shape, vs: seq<int>)
    requires Sane(p) && p.unit <= 1024 && |vs| > 0 && g.offset < 4096 - p.unit
    ensures InPlace(g, Store(g, p, vs), p.unit, vs)
  {
    var g1 := Sreg(ChkOffset(g, p.unit, false), vs[0]);
    ChkKeepsPosition(g, p.unit, false);
    StoreRestInPlace(g1, p.unit, vs[1..]);
    WordsCons(Position(g), p.unit, vs);
  }

  lemma {:induction false} WordsCons(address: int, unit: nat, vs: seq<int>)
    requires |vs| > 0
    ensures Words(address, unit, vs) == [(address, vs[0])] + Words(address + unit, unit, vs[1..])
    ensures |vs| * unit == unit + |vs[1..]| * unit
  {
  }

  lemma {:induction false} StaysUnassembled(g: Sig, unit: nat, vs: seq<int>)
    requires unit <= 2048 && !g.assembles
    ensures !StoreRest(g, unit, vs).assembles
  {
    if vs != [] { StaysUnassembled(g, unit, vs[..|vs| - 1]); }
  }

  /** One check makes room once: the stores are encodable just when the symbol starts below 4096 less a unit. */
  lemma {:induction false} StoreAssembles(g: Sig, p: Shape, vs: seq<int>)
    requires Sane(p) && p.unit <= 1024 && |vs| > 0 && g.assembles
    ensures Store(g, p, vs).assembles <==> g.offset < 4096 - p.unit
  {
    if g.offset < 4096 - p.unit {
      StoreInPlace(g, p, vs);
    } else {
      StaysUnassembled(Sreg(ChkOffset(g, p.unit, false), vs[0]), p.unit, vs[1..]);
    }
  }

  // ---------------------------------------------------------------------
  // Runs without explicit offsets
  // ---------------------------------------------------------------------

  /** Calls one after another, each with its own alignment test and values, none with an offset of its own. */
  datatype Call = Call(test: nat, vs: seq<int>)

  ghost predicate SaneCalls(calls: seq<Call>, unit: nat, fix: nat) {
    fix > 0 && 0 < unit <= 1024 && forall k | 0 <= k < |calls| :: SaneCall(calls[k])
  }

  predicate SaneCall(call: Call) {
    call.test > 0 && |call.vs| > 0
  }

  function Calls(g: Sig, unit: nat, fix: nat, calls: seq<Call>): Sig
    requires SaneCalls(calls, unit, fix)
  {
    if calls == [] then g
    else
      var last := calls[|calls| - 1];
      Update(Calls(g, unit, fix, calls[..|calls| - 1]), Shape(unit, last.test, fix), None, last.vs)
  }

  function Values(calls: seq<Call>): seq<int> {
    if calls == [] then [] else Values(calls[..|calls| - 1]) + calls[|calls| - 1].vs
  }

  /** The widths in use. */
  ghost predicate Width(unit: nat) {
    unit == 4 || unit == 8 || unit == 16
  }

  lemma {:induction false} ChkAligned(g: Sig, unit: nat, preInc: bool)
    requires Width(unit) && g.offset % unit == 0
    ensures ChkOffset(g, unit, preInc).offset % unit == 0
  {
    var k := if unit == 4 then 511 else if unit == 8 then 255 else 127;
    var o := if preInc then g.offset + unit else g.offset;
    assert o % unit == 0 by { ModAddMultiple(g.offset, 1, unit); }
    BackAligned(o, unit, k);
  }

  lemma {:induction false} BackAligned(o: nat, unit: nat, k: nat)
    requires 0 < unit <= 2048 && o % unit == 0 && k * unit == 2048 - unit
    ensures (o - (2048 - unit)) % unit == 0
  {
    ModAddMultiple(o - (2048 - unit), k, unit);
  }

  lemma {:induction false} StoreRestAligned(g: Sig, unit: nat, vs: seq<int>)
    requires Width(unit) && g.offset % unit == 0
    ensures StoreRest(g, unit, vs).offset % unit == 0
  {
    if vs != [] {
      StoreRestAligned(g, unit, vs[..|vs| - 1]);
      ChkAligned(StoreRest(g, unit, vs[..|vs| - 1]), unit, true);
    }
  }

  lemma {:induction false} StoreAligned(g: Sig, p: Shape, vs: seq<int>)
    requires Sane(p) && Width(p.unit) && |vs| > 0 && g.offset % p.unit == 0
    ensures Store(g, p, vs).offset % p.unit == 0
  {
    var g1 := ChkOffset(g, p.unit, false);
    ChkAligned(g, p.unit, false);
    StoreRestAligned(Sreg(g1, vs[0]), p.unit, vs[1..]);
    ModAddMultiple(StoreRest(Sreg(g1, vs[0]), p.unit, vs[1..]).offset, 1, p.unit);
  }

  /** All of vs stored from start on, and the symbol ready for more. */
  ghost predicate Follows(g0: Sig, g: Sig, start: int, unit: nat, vs: seq<int>)
    requires unit > 0
  {
    && g.stored == g0.stored + Words(start, unit, vs)
    && Position(g) == start + |vs| * unit
    && g.assembles == g0.assembles
    && g.offset % unit == 0 && g.offset < 2048 + unit
  }

  /** A test the symbol passes leaves it alone. */
  lemma {:induction false} UpdateInPlace(g: Sig, p: Shape, vs: seq<int>)
    requires Sane(p) && Width(p.unit) && |vs| > 0 && g.offset % p.unit == 0 && g.offset < 2048 + p.unit
    requires p.test == 1 || p.test == p.unit
    ensures InPlace(g, Update(g, p, None, vs), p.unit, vs) && Update(g, p, None, vs).offset % p.unit == 0
  {
    assert Prepare(g, p, None) == g;
    StoreInPlace(g, p, vs);
    StoreAligned(g, p, vs);
  }

  lemma {:induction false} FollowsOn(g0: Sig, g: Sig, start: int, p: Shape, vs: seq<int>, last: seq<int>)
    requires Sane(p) && Width(p.unit) && (p.test == 1 || p.test == p.unit) && |last| > 0
    requires Follows(g0, g, start, p.unit, vs)
    ensures Follows(g0, Update(g, p, None, last), start, p.unit, vs + last)
  {
    UpdateInPlace(g, p, last);
    WordsJoin(start, p.unit, vs, last);
  }

  /** After RVTEST_SIGBASE any run of macros whose alignment test is at most their unit fills memory without a gap. */
  lemma {:induction false} RunInPlace(g0: Sig, start: int, unit: nat, fix: nat, calls: seq<Call>)
    requires SaneCalls(calls, unit, fix) && Width(unit)
    requires forall k | 0 <= k < |calls| :: calls[k].test == 1 || calls[k].test == unit
    ensures Follows(g0, Calls(SigBase(g0, start), unit, fix, calls), start, unit, Values(calls))
  {
    if calls != [] {
      var before, last := calls[..|calls| - 1], calls[|calls| - 1];
      RunInPlace(g0, start, unit, fix, before);
      FollowsOn(g0, Calls(SigBase(g0, start), unit, fix, before), start, Shape(unit, last.test, fix), Values(before),
          last.vs);
    }
  }

  // ---------------------------------------------------------------------
  // Runs of any macros
  // ---------------------------------------------------------------------

  /** The alignment repair does not move the symbol: it passes the test, or already is what the repair makes of it. */
  predicate Unmoved(g: Sig, p: Shape) {
    p.test > 0 && p.fix > 0 && (g.offset % p.test == 0 || g.offset == g.offset % p.fix + p.fix)
  }

  /** Everything stored in place so far, and every store encodable if all before were. */
  ghost predicate Reached(g0: Sig, g: Sig, start: int, unit: nat, vs: seq<int>) {
    && g.stored == g0.stored + Words(start, unit, vs) && g.assembles == g0.assembles
    && Position(g) == start + |vs| * unit && g.offset < 2048 + unit
  }

  lemma {:induction false} ReachedOn(g0: Sig, g: Sig, start: int, p: Shape, vs: seq<int>, last: seq<int>)
    requires Sane(p) && p.unit <= 1024 && |last| > 0 && Unmoved(g, p) && Reached(g0, g, start, p.unit, vs)
    ensures Reached(g0, Update(g, p, None, last), start, p.unit, vs + last)
  {
    assert Prepare(g, p, None) == g;
    StoreInPlace(g, p, last);
    WordsJoin(start, p.unit, vs, last);
  }

  lemma {:induction false} FirstStore(g: Sig, p: Shape, vs: seq<int>)
    requires Sane(p) && |vs| > 0
    ensures var after := Store(g, p, vs);
            |after.stored| > |g.stored| && g.stored <= after.stored && after.stored[|g.stored|].0 == Position(g)
  {
    var g1 := Sreg(ChkOffset(g, p.unit, false), vs[0]);
    ChkKeepsPosition(g, p.unit, false);
    StoreRestExtends(g1, p.unit, vs[1..]);
  }

  /** Each call of the run, in the state the calls before it leave, finds a symbol it does not move. */
  predicate NoneMoved(g: Sig, unit: nat, fix: nat, calls: seq<Call>)
    requires SaneCalls(calls, unit, fix)
  {
    calls == [] ||
    var n := |calls| - 1;
    NoneMoved(g, unit, fix, calls[..n]) && Unmoved(Calls(g, unit, fix, calls[..n]), Shape(unit, calls[n].test, fix))
  }

  lemma {:induction false} NoneMovedReached(g0: Sig, start: int, unit: nat, fix: nat, calls: seq<Call>)
    requires SaneCalls(calls, unit, fix) && NoneMoved(SigBase(g0, start), unit, fix, calls)
    ensures Reached(g0, Calls(SigBase(g0, start), unit, fix, calls), start, unit, Values(calls))
  {
    if calls != [] {
      var n := |calls| - 1;
      NoneMovedReached(g0, start, unit, fix, calls[..n]);
      var g := Calls(SigBase(g0, start), unit, fix, calls[..n]);
      ReachedOn(g0, g, start, Shape(unit, calls[n].test, fix), Values(calls[..n]), calls[n].vs);
    }
  }

  /** A call that moves the symbol stores its first word in the wrong place. */
  lemma {:induction false} MovedWrong(g0: Sig, g: Sig, start: int, p: Shape, vs: seq<int>, last: seq<int>)
    requires Sane(p) && |last| > 0 && !Unmoved(g, p) && Reached(g0, g, start, p.unit, vs)
    ensures var after := Update(g, p, None, last);
            && |after.stored| > |g.stored| == |g0.stored| + |vs|
            && after.stored[|g.stored|].0 != start + |vs| * p.unit
  {
    FirstStore(Prepare(g, p, None), p, last);
  }

  /** The first call that moves the symbol. */
  lemma {:induction false} FirstMoved(g: Sig, unit: nat, fix: nat, calls: seq<Call>) returns (k: nat)
    requires SaneCalls(calls, unit, fix) && !NoneMoved(g, unit, fix, calls)
    ensures k < |calls| && SaneCalls(calls[..k], unit, fix) && NoneMoved(g, unit, fix, calls[..k])
    ensures !Unmoved(Calls(g, unit, fix, calls[..k]), Shape(unit, calls[k].test, fix))
    decreases |calls|
  {
    var n := |calls| - 1;
    if NoneMoved(g, unit, fix, calls[..n]) {
      k := n;
    } else {
      k := FirstMoved(g, unit, fix, calls[..n]);
      assert calls[..n][..k] == calls[..k];
    }
  }

  lemma {:induction false} ValuesGrow(calls: seq<Call>, k: nat)
    requires k < |calls|
    ensures |Values(calls[..k])| + |calls[k].vs| <= |Values(calls)|
    decreases |calls|
  {
    var n := |calls| - 1;
    if k < n {
      ValuesGrow(calls[..n], k);
      assert calls[..n][..k] == calls[..k];
    }
  }

  lemma {:induction false} MovedShows(g0: Sig, start: int, unit: nat, fix: nat, calls: seq<Call>)
    requires SaneCalls(calls, unit, fix) && !NoneMoved(SigBase(g0, start), unit, fix, calls)
    ensures Calls(SigBase(g0, start), unit, fix, calls).stored != g0.stored + Words(start, unit, Values(calls))
  {
    var g := SigBase(g0, start);
    var k := FirstMoved(g, unit, fix, calls);
    var before, vs := Calls(g, unit, fix, calls[..k]), Values(calls[..k]);
    NoneMovedReached(g0, start, unit, fix, calls[..k]);
    MovedWrong(g0, before, start, Shape(unit, calls[k].test, fix), vs, calls[k].vs);
    CallsExtend(g, unit, fix, calls, k + 1);
    NextCall(g, unit, fix, calls, k);
    ValuesGrow(calls, k);
    WordsAt(g0.stored, start, unit, Values(calls), |vs|);
  }

  lemma {:induction false} NextCall(g: Sig, unit: nat, fix: nat, calls: seq<Call>, k: nat)
    requires SaneCalls(calls, unit, fix) && k < |calls| && SaneCalls(calls[..k], unit, fix)
             && SaneCalls(calls[..k + 1], unit, fix)
    ensures Calls(g, unit, fix, calls[..k + 1])
         == Update(Calls(g, unit, fix, calls[..k]), Shape(unit, calls[k].test, fix), None, calls[k].vs)
  {
    assert calls[..k + 1][..k] == calls[..k];
  }

  lemma {:induction false} WordsAt(stored: seq<(int, int)>, start: int, unit: nat, vs: seq<int>, n: nat)
    requires n < |vs|
    ensures (stored + Words(start, unit, vs))[|stored| + n].0 == start + n * unit
  {
  }

  /**
    After RVTEST_SIGBASE a run of any macros, whatever they test for, fills memory
    from the label without a gap exactly if no call finds a symbol it moves; then
    every store is encodable too.
   */
  lemma {:induction false} RunInPlaceIff(g0: Sig, start: int, unit: nat, fix: nat, calls: seq<Call>)
    requires SaneCalls(calls, unit, fix)
    ensures Calls(SigBase(g0, start), unit, fix, calls).stored == g0.stored + Words(start, unit, Values(calls))
            <==> NoneMoved(SigBase(g0, start), unit, fix, calls)
    ensures Landed(g0, Calls(SigBase(g0, start), unit, fix, calls), Words(start, unit, Values(calls)))
            <==> NoneMoved(SigBase(g0, start), unit, fix, calls)
  {
    var g := SigBase(g0, start);
    if NoneMoved(g, unit, fix, calls) {
      NoneMovedReached(g0, start, unit, fix, calls);
    } else {
      MovedShows(g0, start, unit, fix, calls);
    }
  }

  // ---------------------------------------------------------------------
  // SIGUPD_FID where REGWIDTH is 4 and SIGALIGN 8 (RV32 with D)
  // ---------------------------------------------------------------------

  /** Calls of SIGUPD_FID: two values each, tested against SIGALIGN. */
  ghost predicate AllFid(calls: seq<Call>) {
    forall k | 0 <= k < |calls| :: calls[k].test == 8 && |calls[k].vs| == 2
  }

  lemma {:induction false} FidLength(calls: seq<Call>)
    requires AllFid(calls)
    ensures |Values(calls)| == 2 * |calls| && |Values(calls)| * 4 == 8 * |calls|
  {
    if calls != [] {
      FidLength(calls[..|calls| - 1]);
    }
  }

  /** The symbol after n calls: the one rebase leaves it aligned to REGWIDTH only. */
  function FidOffset(n: nat): nat {
    if n <= 256 then 8 * n else if n == 257 then 12 else 20
  }

  lemma {:induction false} FidStep(g: Sig, vs: seq<int>)
    requires |vs| == 2
    ensures var after := Update(g, Shape(4, 8, 8), None, vs);
            && (g.offset % 8 == 0 && g.offset < 2048 ==>
                  after.offset == g.offset + 8 && after.base == g.base)
            && (g.offset == 2048 ==> after.offset == 12 && after.base == g.base + 2044)
            && (g.offset == 12 || g.offset == 20 ==> after.offset == 20 && after.base == g.base)
  {
    var p := Shape(4, 8, 8);
    assert vs[1..] == [vs[1]];
    StoreOne(Sreg(ChkOffset(Prepare(g, p, None), 4, false), vs[0]), 4, vs[1]);
  }

  lemma {:induction false} FidState(g0: Sig, start: int, calls: seq<Call>)
    requires AllFid(calls) && SaneCalls(calls, 4, 8)
    ensures var g := Calls(SigBase(g0, start), 4, 8, calls);
            && g.offset == FidOffset(|calls|)
            && g.base == if |calls| <= 256 then start else start + 2044
  {
    if calls != [] {
      var before := calls[..|calls| - 1];
      FidState(g0, start, before);
      FidStep(Calls(SigBase(g0, start), 4, 8, before), calls[|calls| - 1].vs);
    }
  }

  lemma {:induction false} FidPrepare(g: Sig, n: nat)
    requires n < 258 && g.offset == FidOffset(n)
    ensures Prepare(g, Shape(4, 8, 8), None) == g
  {
  }

  lemma {:induction false} FidFitsNext(g: Sig, stored: seq<(int, int)>, start: int, vs: seq<int>, n: nat,
                                       last: seq<int>)
    requires n < 258 && |last| == 2 && |vs| * 4 == 8 * n
    requires g.offset == FidOffset(n) && g.base == if n <= 256 then start else start + 2044
    requires g.stored == stored + Words(start, 4, vs)
    ensures Update(g, Shape(4, 8, 8), None, last).stored == stored + Words(start, 4, vs + last)
  {
    var p := Shape(4, 8, 8);
    FidPrepare(g, n);
    StoreInPlace(g, p, last);
    WordsJoin(start, 4, vs, last);
  }

  lemma {:induction false} FidFits(g0: Sig, start: int, calls: seq<Call>)
    requires AllFid(calls) && SaneCalls(calls, 4, 8) && |calls| <= 258
    ensures Calls(SigBase(g0, start), 4, 8, calls).stored == g0.stored + Words(start, 4, Values(calls))
  {
    if calls != [] {
      var before, last := calls[..|calls| - 1], calls[|calls| - 1];
      FidFits(g0, start, before);
      FidState(g0, start, before);
      FidLength(before);
      FidFitsNext(Calls(SigBase(g0, start), 4, 8, before), g0.stored, start, Values(before), |before|, last.vs);
    }
  }

  /** The call after those that fit stores its first value where the call before it did. */
  lemma {:induction false} FidOverwrites(g0: Sig, start: int, calls: seq<Call>)
    requires AllFid(calls) && SaneCalls(calls, 4, 8) && |calls| == 259
    ensures var g := Calls(SigBase(g0, start), 4, 8, calls);
            && |g.stored| == |g0.stored| + 2 * |calls|
            && g.stored[|g.stored| - 2].0 == g.stored[|g.stored| - 4].0 != start + (2 * |calls| - 2) * 4
  {
    var before, last := calls[..|calls| - 1], calls[|calls| - 1];
    var p := Shape(4, 8, 8);
    FidFits(g0, start, before);
    FidState(g0, start, before);
    FidLength(before);
    var g := Calls(SigBase(g0, start), 4, 8, before);
    StoreInPlace(Prepare(g, p, None), p, last.vs);
  }

  lemma {:induction false} StoreRestExtends(g: Sig, unit: nat, vs: seq<int>)
    requires unit <= 2048
    ensures g.stored <= StoreRest(g, unit, vs).stored
  {
    if vs != [] { StoreRestExtends(g, unit, vs[..|vs| - 1]); }
  }

  lemma {:induction false} CallsExtend(g: Sig, unit: nat, fix: nat, calls: seq<Call>, k: nat)
    requires SaneCalls(calls, unit, fix) && k <= |calls|
    ensures SaneCalls(calls[..k], unit, fix)
    ensures Calls(g, unit, fix, calls[..k]).stored <= Calls(g, unit, fix, calls).stored
    decreases |calls|
  {
    if k < |calls| {
      var before, last := calls[..|calls| - 1], calls[|calls| - 1];
      CallsExtend(g, unit, fix, before, k);
      assert before[..k] == calls[..k];
      var p := Shape(unit, last.test, fix);
      var g1 := ChkOffset(Prepare(Calls(g, unit, fix, before), p, None), unit, false);
      StoreRestExtends(Sreg(g1, last.vs[0]), unit, last.vs[1..]);
    } else {
      assert calls[..k] == calls;
    }
  }

  /** A run of SIGUPD_FID calls stays in place just when it is at most two calls longer than what fits below 2048. */
  lemma {:induction false} FidInPlaceIff(g0: Sig, start: int, calls: seq<Call>)
    requires AllFid(calls) && SaneCalls(calls, 4, 8)
    ensures Calls(SigBase(g0, start), 4, 8, calls).stored == g0.stored + Words(start, 4, Values(calls))
            <==> |calls| <= 258
  {
    if |calls| <= 258 {
      FidFits(g0, start, calls);
    } else {
      var n := 259;
      CallsExtend(SigBase(g0, start), 4, 8, calls, n);
      FidOverwrites(g0, start, calls[..n]);
      FidLength(calls);
      var at := |g0.stored| + 2 * n - 2;
      assert (g0.stored + Words(start, 4, Values(calls)))[at].0 == start + (2 * n - 2) * 4;
    }
  }

  // ---------------------------------------------------------------------
  // The generator's explicit offsets
  // ---------------------------------------------------------------------

  /** A test's signature entry: the address of its region's label, its offset in units, and what it stores. */
  datatype Entry = Entry(address: int, offset: nat, test: nat, vs: seq<int>)

  /** RVTEST_SIGBASE wherever the offset is 0, and the macro with the offset as its argument. */
  function Entries(g: Sig, unit: nat, fix: nat, es: seq<Entry>): Sig
    requires SaneEntries(es, unit, fix)
  {
    if es == [] then g
    else
      var before, last := Entries(g, unit, fix, es[..|es| - 1]), es[|es| - 1];
      EntryStep(before, unit, fix, last)
  }

  function EntryStep(g: Sig, unit: nat, fix: nat, e: Entry): Sig
    requires SaneEntry(e, unit, fix)
  {
    Update(if e.offset == 0 then SigBase(g, e.address) else g, Shape(unit, e.test, fix), Some(e.offset * unit), e.vs)
  }

  ghost predicate SaneEntries(es: seq<Entry>, unit: nat, fix: nat) {
    forall k | 0 <= k < |es| :: SaneEntry(es[k], unit, fix)
  }

  predicate SaneEntry(e: Entry, unit: nat, fix: nat) {
    fix > 0 && 0 < unit <= 1024 && (e.test == 1 || e.test == unit) && |e.vs| > 0
  }

  function Slots(es: seq<Entry>, unit: nat): seq<(int, int)> {
    if es == [] then []
    else
      var last := es[|es| - 1];
      Slots(es[..|es| - 1], unit) + Words(last.address + last.offset * unit, unit, last.vs)
  }

  /** Offsets run on within a region or start over, never start past 2047 bytes, and leave room for what is stored. */
  ghost predicate Tiled(es: seq<Entry>, unit: nat, stride: nat) {
    forall k | 0 <= k < |es| :: TiledAt(es, k, unit, stride)
  }

  predicate TiledAt(es: seq<Entry>, k: nat, unit: nat, stride: nat)
    requires k < |es|
  {
    && es[k].offset * unit <= 2047 && |es[k].vs| <= stride
    && (es[k].offset == 0 || (k > 0 && Continues(es[k - 1], es[k], stride)))
  }

  predicate Continues(before: Entry, after: Entry, stride: nat) {
    after.offset == before.offset + stride && after.address == before.address
  }

  lemma {:induction false} StoreRestKeepsBase(g: Sig, unit: nat, vs: seq<int>)
    requires 0 < unit <= 2048 && g.offset + |vs| * unit < 2048
    ensures StoreRest(g, unit, vs).base == g.base && StoreRest(g, unit, vs).offset == g.offset + |vs| * unit
  {
    if vs != [] {
      var rest := vs[..|vs| - 1];
      assert |vs| * unit == |rest| * unit + unit by { Distribute(|rest|, 1, unit); }
      StoreRestKeepsBase(g, unit, rest);
    }
  }

  /** The base moves only in an entry whose last store is past the limit. */
  lemma {:induction false} StoreKeepsBase(g: Sig, p: Shape, vs: seq<int>, stride: nat)
    requires Sane(p) && 0 < |vs| <= stride && g.offset + stride * p.unit < 2048 + p.unit
    ensures Store(g, p, vs).base == g.base
  {
    var n := |vs| - 1;
    assert g.offset + n * p.unit < 2048 by {
      Distribute(n, 1, p.unit);
      Distribute(|vs|, stride - |vs|, p.unit);
    }
    assert g.offset < 2048;
    StoreRestKeepsBase(Sreg(ChkOffset(g, p.unit, false), vs[0]), p.unit, vs[1..]);
  }

  lemma {:induction false} UnitAligned(o: nat, p: Shape)
    requires Sane(p) && (p.test == 1 || p.test == p.unit)
    ensures (o * p.unit) % p.test == 0
  {
    if p.test == p.unit { ModAddMultiple(0, o, p.unit); }
  }

  /** The base is the region's label still, unless no further entry of this region can start below 2048. */
  ghost predicate BaseStands(g: Sig, e: Entry, unit: nat, stride: nat) {
    g.base == e.address || (e.offset + stride) * unit > 2047
  }

  lemma {:induction false} EntryInPlace(g: Sig, unit: nat, fix: nat, e: Entry, stride: nat)
    requires SaneEntry(e, unit, fix) && |e.vs| <= stride && e.offset * unit <= 2047
    requires e.offset == 0 || g.base == e.address
    ensures var after := EntryStep(g, unit, fix, e);
            && after.stored == g.stored + Words(e.address + e.offset * unit, unit, e.vs)
            && after.assembles == g.assembles && BaseStands(after, e, unit, stride)
  {
    var p := Shape(unit, e.test, fix);
    var g1 := if e.offset == 0 then SigBase(g, e.address) else g;
    UnitAligned(e.offset, p);
    var g2 := g1.(offset := e.offset * unit);
    assert Prepare(g1, p, Some(e.offset * unit)) == g2;
    StoreInPlace(g2, p, e.vs);
    Distribute(e.offset, stride, unit);
    if (e.offset + stride) * unit <= 2047 {
      StoreKeepsBase(g2, p, e.vs, stride);
    }
  }

  /** What a run of entries has done. */
  ghost predicate Landed(g: Sig, after: Sig, slots: seq<(int, int)>) {
    after.stored == g.stored + slots && after.assembles == g.assembles
  }

  lemma {:induction false} EntryLands(g: Sig, before: Sig, slots: seq<(int, int)>, unit: nat, fix: nat, e: Entry,
                                      stride: nat)
    requires SaneEntry(e, unit, fix) && |e.vs| <= stride && e.offset * unit <= 2047
    requires e.offset == 0 || before.base == e.address
    requires Landed(g, before, slots)
    ensures Landed(g, EntryStep(before, unit, fix, e), slots + Words(e.address + e.offset * unit, unit, e.vs))
    ensures BaseStands(EntryStep(before, unit, fix, e), e, unit, stride)
  {
    EntryInPlace(before, unit, fix, e, stride);
  }

  lemma {:induction false} TiledPrefix(es: seq<Entry>, unit: nat, stride: nat)
    requires es != [] && Tiled(es, unit, stride)
    ensures Tiled(es[..|es| - 1], unit, stride) && TiledAt(es, |es| - 1, unit, stride)
  {
    var before := es[..|es| - 1];
    forall k | 0 <= k < |before| ensures TiledAt(before, k, unit, stride) { assert TiledAt(es, k, unit, stride); }
  }

  /** With offsets wrapped as the generator wraps them every store lands at its label + offset + j units. */
  lemma {:induction false} EntriesInPlace(g: Sig, unit: nat, fix: nat, es: seq<Entry>, stride: nat)
    requires SaneEntries(es, unit, fix) && Tiled(es, unit, stride)
    ensures Landed(g, Entries(g, unit, fix, es), Slots(es, unit))
    ensures es != [] ==> BaseStands(Entries(g, unit, fix, es), es[|es| - 1], unit, stride)
  {
    if es != [] {
      var n := |es| - 1;
      TiledPrefix(es, unit, stride);
      EntriesInPlace(g, unit, fix, es[..n], stride);
      EntryLands(g, Entries(g, unit, fix, es[..n]), Slots(es[..n], unit), unit, fix, es[n], stride);
    }
  }

  /** The entries of a generated list: offsets from swreg, labels that change only with a new SIGBASE. */
  ghost predicate EntriesOf(es: seq<Entry>, s: seq<Instr>, c: Config)
    requires Fresh(s, c)
  {
    && |es| == |s|
    && (forall k | 0 <= k < |s| :: es[k].offset == AfterSw(s, c)[k].offset && |es[k].vs| <= c.sigStride)
    && (forall k | 0 < k < |s| :: es[k].offset != 0 ==> es[k].address == es[k - 1].address)
  }

  lemma {:induction false} SmallerUnit(o: nat, unit: nat, size: nat)
    requires unit <= size
    ensures o * unit <= o * size
  {
  }

  /**
    So it is for every list swreg allocates, if its size unit, the width of the
    widest XLEN the template is for, is at least the width the macro steps by.
   */
  lemma {:induction false} GeneratedInPlace(g: Sig, unit: nat, fix: nat, es: seq<Entry>, s: seq<Instr>, c: Config)
    requires Fresh(s, c) && EntriesOf(es, s, c) && SaneEntries(es, unit, fix) && unit <= c.sigSize
    ensures Landed(g, Entries(g, unit, fix, es), Slots(es, unit))
  {
    forall k | 0 <= k < |es| ensures TiledAt(es, k, unit, c.sigStride) {
      SwBound(s, c, k);
      SwPick(s, c, k);
      SmallerUnit(es[k].offset, unit, c.sigSize);
      if k > 0 { SwRunsOn(s, c, k); }
    }
    EntriesInPlace(g, unit, fix, es, c.sigStride);
  }
}
