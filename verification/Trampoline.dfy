/**
  Moving the trap trampoline in env/arch-test/arch_test.h.  Where mtvec cannot be
  written the prolog copies the trampoline over the code mtvec points at, saving
  what was there, and the epilog puts it back.  Memory is a row of 32-bit words,
  addressed by number, each writable or read-only.
 */
module Trampoline {

  /** n words each, at target (where mtvec points), save (the save area) and tramp (the trampoline). */
  datatype Areas = Areas(target: nat, save: nat, tramp: nat, n: nat)

  predicate Apart(a: nat, b: nat, n: nat) {
    a + n <= b || b + n <= a
  }

  predicate Inside(r: Areas, size: nat) {
    r.target + r.n <= size && r.save + r.n <= size && r.tramp + r.n <= size
  }

  /** Inside the memory, apart from each other, and the save area writable. */
  ghost predicate Sound(r: Areas, size: nat, readOnly: nat -> bool) {
    && r.n > 0 && Inside(r, size)
    && Apart(r.target, r.save, r.n) && Apart(r.target, r.tramp, r.n) && Apart(r.save, r.tramp, r.n)
    && forall j | r.save <= j < r.save + r.n :: !readOnly(j)
  }

  // ---------------------------------------------------------------------
  // How far the copy gets
  // ---------------------------------------------------------------------

  /** Word k of the target, written with the trampoline's, reads back as that. */
  predicate Takes(r: Areas, before: seq<int>, readOnly: nat -> bool, k: nat)
    requires Inside(r, |before|) && k < r.n
  {
    !readOnly(r.target + k) || before[r.target + k] == before[r.tramp + k]
  }

  /**
    Built for testing the handler, the copy pretends to fail while the save pointer
    is less than 256 bytes into the save area.
   */
  predicate Pretends(r: Areas, handlerTest: bool, k: nat) {
    handlerTest && 4 * r.save + 256 > 4 * (r.save + k)
  }

  /** The first word from k on at which the copy ends, or n. */
  function Reach(r: Areas, before: seq<int>, readOnly: nat -> bool, handlerTest: bool, k: nat): (e: nat)
    requires Inside(r, |before|) && k <= r.n
    ensures k <= e <= r.n
    ensures forall j | k <= j < e :: Takes(r, before, readOnly, j) && !Pretends(r, handlerTest, j)
    ensures e < r.n ==> !Takes(r, before, readOnly, e) || Pretends(r, handlerTest, e)
    decreases r.n - k
  {
    if k < r.n && Takes(r, before, readOnly, k) && !Pretends(r, handlerTest, k) then
      Reach(r, before, readOnly, handlerTest, k + 1)
    else k
  }

  // ---------------------------------------------------------------------
  // What the two loops leave
  // ---------------------------------------------------------------------

  /** Target word x once k words are copied: read-only words stay, though only if they were the trampoline's already. */
  function Replaced(r: Areas, before: seq<int>, k: nat, x: nat): int
    requires Inside(r, |before|) && r.target <= x < r.target + r.n
  {
    if x < r.target + k then before[x - r.target + r.tramp] else before[x]
  }

  /** Save word x once k words are saved. */
  function Saved(r: Areas, before: seq<int>, k: nat, x: nat): int
    requires Inside(r, |before|) && r.save <= x < r.save + r.n
  {
    if x < r.save + k then before[x - r.save + r.target] else before[x]
  }

  predicate Elsewhere(r: Areas, x: nat) {
    !(r.target <= x < r.target + r.n) && !(r.save <= x < r.save + r.n)
  }

  /** The whole memory with the first saved words saved and the first copied words replaced. */
  ghost predicate Swapped(r: Areas, before: seq<int>, now: seq<int>, saved: nat, copied: nat)
    requires |now| == |before| && Inside(r, |before|)
  {
    && (forall x: nat | r.target <= x < r.target + r.n :: now[x] == Replaced(r, before, copied, x))
    && (forall x: nat | r.save <= x < r.save + r.n :: now[x] == Saved(r, before, saved, x))
    && (forall x: nat | x < |before| && Elsewhere(r, x) :: now[x] == before[x])
  }

  /** The memory when the copy has ended at k: word k is saved too, and changed if it could be. */
  ghost predicate Overwritten(r: Areas, before: seq<int>, now: seq<int>, k: nat, readOnly: nat -> bool)
    requires |now| == |before| && Inside(r, |before|) && k <= r.n
  {
    if k == r.n then Swapped(r, before, now, k, k)
    else Swapped(r, before, now, k + 1, if readOnly(r.target + k) then k else k + 1)
  }

  /** What the epilog's loop leaves at target word x. */
  function Back(r: Areas, before: seq<int>, k: nat, readOnly: nat -> bool, x: nat): int
    requires r.target <= x < r.target + r.n && Inside(r, |before|)
  {
    if (x == r.target || x < r.target + k) && !readOnly(x) then before[x - r.target + r.save] else before[x]
  }

  /** The epilog's loop: word by word from the save area, at least one, up to word k. */
  ghost predicate Restored(r: Areas, before: seq<int>, now: seq<int>, k: nat, readOnly: nat -> bool)
    requires |now| == |before| && Inside(r, |before|)
  {
    && (forall x: nat | r.target <= x < r.target + r.n :: now[x] == Back(r, before, k, readOnly, x))
    && (forall x: nat | x < |before| && !(r.target <= x < r.target + r.n) :: now[x] == before[x])
  }

  // ---------------------------------------------------------------------
  // One word at a time
  // ---------------------------------------------------------------------

  /** A store: nothing happens at a read-only word. */
  function Stored(m: seq<int>, readOnly: nat -> bool, x: nat, v: int): (r: seq<int>)
    requires x < |m|
    ensures |r| == |m| && forall y | 0 <= y < |m| && y != x :: r[y] == m[y]
    ensures r[x] == if readOnly(x) then m[x] else v
  {
    if readOnly(x) then m else m[x := v]
  }

  lemma {:induction false} SaveStep(r: Areas, before: seq<int>, now: seq<int>, k: nat, readOnly: nat -> bool)
      returns (saved: seq<int>)
    requires |now| == |before| && k < r.n && Sound(r, |before|, readOnly) && Swapped(r, before, now, k, k)
    ensures saved == Stored(now, readOnly, r.save + k, now[r.target + k])
    ensures Swapped(r, before, saved, k + 1, k) && saved[r.tramp + k] == before[r.tramp + k]
  {
    saved := Stored(now, readOnly, r.save + k, now[r.target + k]);
    assert Elsewhere(r, r.tramp + k);
    assert now[r.target + k] == before[r.target + k];
  }

  lemma {:induction false} CopyStep(r: Areas, before: seq<int>, saved: seq<int>, k: nat, readOnly: nat -> bool)
      returns (copied: seq<int>)
    requires |saved| == |before| && k < r.n && Sound(r, |before|, readOnly)
    requires Swapped(r, before, saved, k + 1, k) && saved[r.tramp + k] == before[r.tramp + k]
    ensures copied == Stored(saved, readOnly, r.target + k, saved[r.tramp + k])
    ensures Swapped(r, before, copied, k + 1, if readOnly(r.target + k) then k else k + 1)
    ensures copied[r.target + k] == before[r.tramp + k] <==> Takes(r, before, readOnly, k)
    ensures Takes(r, before, readOnly, k) ==> Swapped(r, before, copied, k + 1, k + 1)
  {
    copied := Stored(saved, readOnly, r.target + k, saved[r.tramp + k]);
    assert saved[r.target + k] == before[r.target + k];
  }

  /** The first turn is the same for no words as for one. */
  lemma {:induction false} RestoreFirst(r: Areas, before: seq<int>, readOnly: nat -> bool)
    requires Sound(r, |before|, readOnly)
    ensures Restored(r, before, Stored(before, readOnly, r.target, before[r.save]), 0, readOnly)
    ensures Restored(r, before, Stored(before, readOnly, r.target, before[r.save]), 1, readOnly)
  {
  }

  lemma {:induction false} RestoreStep(r: Areas, before: seq<int>, now: seq<int>, k: nat, readOnly: nat -> bool)
    requires |now| == |before| && 0 < k < r.n && Sound(r, |before|, readOnly) && Restored(r, before, now, k, readOnly)
    ensures Restored(r, before, Stored(now, readOnly, r.target + k, now[r.save + k]), k + 1, readOnly)
  {
  }

  // ---------------------------------------------------------------------
  // The loops
  // ---------------------------------------------------------------------

  class Memory {
    const words: array<int>
    const readOnly: nat -> bool

    constructor (words: array<int>, readOnly: nat -> bool)
      ensures this.words == words && this.readOnly == readOnly
    {
      this.words, this.readOnly := words, readOnly;
    }

    method Sw(x: nat, v: int)
      requires x < words.Length
      modifies words
      ensures words[..] == Stored(old(words[..]), readOnly, x, v)
    {
      if !readOnly(x) {
        words[x] := v;
      }
    }

    /** One turn of the overwt_tt loop: whether the copy goes on. */
    method CopyWord(r: Areas, handlerTest: bool, k: nat, ghost before: seq<int>) returns (go: bool)
      requires k < r.n && Sound(r, words.Length, readOnly) && |before| == words.Length
      requires Swapped(r, before, words[..], k, k)
      modifies words
      ensures go <==> Takes(r, before, readOnly, k) && !Pretends(r, handlerTest, k)
      ensures if go then Swapped(r, before, words[..], k + 1, k + 1) else Overwritten(r, before, words[..], k, readOnly)
    {
      ghost var saved := SaveStep(r, before, words[..], k, readOnly);
      ghost var copied := CopyStep(r, before, saved, k, readOnly);
      Sw(r.save + k, words[r.target + k]);
      assert words[..] == saved;
      var word := words[r.tramp + k];
      Sw(r.target + k, word);
      assert words[..] == copied && copied[r.target + k] == words[r.target + k];
      go := words[r.target + k] == word && !(handlerTest && 4 * r.save + 256 > 4 * (r.save + k));
    }

    /** The overwt_tt loop: k words copied, or all. */
    method Overwrite(r: Areas, handlerTest: bool) returns (k: nat)
      requires Sound(r, words.Length, readOnly)
      modifies words
      ensures k == Reach(r, old(words[..]), readOnly, handlerTest, 0)
      ensures Overwritten(r, old(words[..]), words[..], k, readOnly)
    {
      ghost var before := words[..];
      k := 0;
      var go := true;
      while go && k < r.n
        invariant k <= r.n && Reach(r, before, readOnly, handlerTest, k) == Reach(r, before, readOnly, handlerTest, 0)
        invariant if go then Swapped(r, before, words[..], k, k)
                  else k == Reach(r, before, readOnly, handlerTest, k) && Overwritten(r, before, words[..], k, readOnly)
        decreases r.n - k, go
      {
        go := CopyWord(r, handlerTest, k, before);
        if go {
          k := k + 1;
        }
      }
    }

    /** The resto loop, a do-while; k is what trampend recorded. */
    method Restore(r: Areas, k: nat)
      requires Sound(r, words.Length, readOnly) && k <= r.n
      modifies words
      ensures Restored(r, old(words[..]), words[..], k, readOnly)
    {
      ghost var before := words[..];
      RestoreFirst(r, before, readOnly);
      Sw(r.target, words[r.save]);
      var j := 1;
      while j < k
        invariant 1 <= j <= if k == 0 then 1 else k
        invariant Restored(r, before, words[..], if k == 0 then 0 else j, readOnly)
      {
        RestoreStep(r, before, words[..], j, readOnly);
        Sw(r.target + j, words[r.save + j]);
        j := j + 1;
      }
    }
  }

  // ---------------------------------------------------------------------
  // Restoring undoes overwriting
  // ---------------------------------------------------------------------

  /** Built for testing the handler, the copy always ends at the first word. */
  lemma {:induction false} HandlerTestStops(r: Areas, before: seq<int>, readOnly: nat -> bool)
    requires Inside(r, |before|)
    ensures Reach(r, before, readOnly, true, 0) == 0
  {
  }

  /** The test in between left the target and the save area alone. */
  ghost predicate Untouched(r: Areas, a: seq<int>, b: seq<int>)
    requires |a| == |b| && Inside(r, |a|)
  {
    && (forall x: nat | r.target <= x < r.target + r.n :: a[x] == b[x])
    && (forall x: nat | r.save <= x < r.save + r.n :: a[x] == b[x])
  }

  /** In either build, for any memory, the epilog gives the mtvec target its original words back. */
  lemma {:induction false} RestoreUndoes(r: Areas, readOnly: nat -> bool, handlerTest: bool,
                                         before: seq<int>, copied: seq<int>, later: seq<int>, after: seq<int>)
    requires |before| == |copied| == |later| == |after| && Sound(r, |before|, readOnly)
    requires var k := Reach(r, before, readOnly, handlerTest, 0);
             Overwritten(r, before, copied, k, readOnly) && Untouched(r, copied, later)
                 && Restored(r, later, after, k, readOnly)
    ensures forall x: nat | r.target <= x < r.target + r.n :: after[x] == before[x]
  {
    var k := Reach(r, before, readOnly, handlerTest, 0);
    if handlerTest { HandlerTestStops(r, before, readOnly); }
    forall x: nat | r.target <= x < r.target + r.n ensures after[x] == before[x] {
      var y := x - r.target + r.save;
      assert later[x] == copied[x] && later[y] == copied[y];
      if x < r.target + k {
        assert Takes(r, before, readOnly, x - r.target);
      }
    }
  }
}
