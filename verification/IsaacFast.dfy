/** src/isaac/rand.c and rand.h: the generator unrolled by four in two phases, with
    pointers walking over the memory and the results. */
module IsaacFast {
  import opened Isaac
  import opened IsaacSeed
  import IsaacReadable

  /** `ind(mm, x)`: a byte offset into the memory, cut down to a word boundary. */
  function Ind(mm: Memory, x: Word): Word {
    mm[ByteOffset(x) / 4]
  }

  function ByteOffset(x: Word): (i: nat)
    ensures i < 1024 && i / 4 < 256
  {
    OffsetFits(x);
    (x & 0x3fc) as nat
  }

  lemma OffsetFits(x: Word)
    ensures (x & 0x3fc) as nat < 1024
  {
    assert x & 0x3fc < 1024;
  }

  /** The byte offset picks the word that the simple form picks by its index. */
  lemma IndMeans(mm: Memory, x: Word)
    ensures Ind(mm, x) == mm[Slot(x)]
    ensures Ind(mm, x >> 8) == mm[HighSlot(x)]
  {
    SlotMeans(x);
    HighSlotMeans(x);
  }

  lemma SlotMeans(x: Word)
    ensures ByteOffset(x) / 4 == Slot(x)
  {
  }

  lemma HighSlotMeans(x: Word)
    ensures ByteOffset(x >> 8) / 4 == HighSlot(x)
  {
  }

  /** A step, spelt out as the macro computes it. */
  lemma StepSpelt(s: State, i: nat, a: Word, y: Word, b: Word)
    requires i < 256 && a == Sum(s.mem[(i + 128) % 256], Xor(s.a, Shifted(s.a, i)))
    requires y == Sum(Sum(s.mem[Slot(s.mem[i])], a), s.b) && b == Sum(s.mem[i := y][HighSlot(y)], s.mem[i])
    ensures Step(s, i) == State(s.mem[i := y], a, b, s.c)
  {
    hide Slot, HighSlot, Sum, Xor, Shifted;
  }

  /** The shifts of a turn of the unrolled loop. */
  lemma FourShifts(a: Word, m: nat)
    requires m % 4 == 0
    ensures Shifted(a, m) == Left13(a) && Shifted(a, m + 1) == Right6(a) && Shifted(a, m + 2) == Left2(a) && Shifted(a, m + 3) == Right16(a)
  {
    hide Left13, Right6, Left2, Right16;
  }

  /** Its second cursor does not wrap within a turn. */
  lemma Cursors(m: nat, m2: nat)
    requires m + 4 <= 256 && m % 4 == 0 && m2 == (m + 128) % 256
    ensures (m + 1 + 128) % 256 == m2 + 1 && (m + 2 + 128) % 256 == m2 + 2 && (m + 3 + 128) % 256 == m2 + 3
  {
  }

  class RandCtx {
    var randcnt: nat
    const randrsl: array<Word>
    const randmem: array<Word>
    var randa: Word
    var randb: Word
    var randc: Word
    /** The state before the first round since seeding, and the rounds run since. */
    ghost var start: State
    ghost var batches: nat

    ghost predicate Valid()
      reads this
    {
      randmem != randrsl && randmem.Length == 256 && randrsl.Length == 256
    }

    ghost function Current(): State
      requires Valid()
      reads this, randmem
    {
      State(randmem[..], randa, randb, randc)
    }

    /** The results, which are the seed before seeding. */
    ghost function Batch(): Memory
      requires Valid()
      reads this, randrsl
    {
      randrsl[..]
    }

    /** The context is seeded and holds `randcnt` results not yet drawn. */
    ghost predicate Seeded()
      reads this, randmem, randrsl
    {
      && Valid() && randcnt <= 256 && batches > 0
      && Current() == Rounds(start, batches) && Batch() == Results(Rounds(start, batches - 1))
    }

    ghost function Drawn(): int
      reads this
    {
      256 * batches - randcnt
    }

    constructor ()
      ensures Valid() && fresh(randmem) && fresh(randrsl)
    {
      randrsl, randmem := new Word[256](_ => 0), new Word[256](_ => 0);
      randcnt, randa, randb, randc := 0, 0, 0, 0;
    }

    /** `n` steps from `s` are done, with the accumulators still in registers. */
    ghost predicate Reached(s: State, a: Word, b: Word, n: nat)
      requires Valid() && n <= 256
      reads this, randmem, randrsl
    {
      && State(randmem[..], a, b, randc) == Steps(s, n)
      && forall j :: 0 <= j < n ==> randrsl[j] == Steps(s, j + 1).b
    }

    /** One rngstep, from the pointers as the two phases keep them. */
    method RngStep(mix: Word, a: Word, b: Word, m: nat, m2: nat, r: nat, ghost s: State)
      returns (a': Word, b': Word, m': nat, m2': nat, r': nat)
      requires Valid() && m < 256 && m2 == (m + 128) % 256 && r == m && mix == Shifted(a, m) && Reached(s, a, b, m)
      modifies randmem, randrsl
      ensures Valid() && Reached(s, a', b', m + 1)
      ensures m' == m + 1 && m2' == m2 + 1 && r' == r + 1
    {
      hide Slot, HighSlot, Sum, Xor, Shifted, Ind, Step;
      ghost var t := State(randmem[..], a, b, randc);
      var x := randmem[m];
      a' := Sum(randmem[m2], Xor(a, mix));
      m2' := m2 + 1;
      var y := Sum(Sum(Ind(randmem[..], x), a'), b);
      IndMeans(randmem[..], x);
      randmem[m] := y;
      assert randmem[..] == t.mem[m := y];
      m' := m + 1;
      IndMeans(randmem[..], y);
      b' := Sum(Ind(randmem[..], y >> 8), x);
      StepSpelt(t, m, a', y, b');
      assert State(randmem[..], a', b', randc) == Step(t, m);
      randrsl[r] := b';
      r' := r + 1;
      assert randmem[..] == t.mem[m := y];
    }

    /** Four steps, one with each shift. */
    method FourSteps(a: Word, b: Word, m: nat, m2: nat, r: nat, ghost s: State)
      returns (a': Word, b': Word, m': nat, m2': nat, r': nat)
      requires Valid() && m + 4 <= 256 && m % 4 == 0 && m2 == (m + 128) % 256 && r == m && Reached(s, a, b, m)
      modifies randmem, randrsl
      ensures Valid() && Reached(s, a', b', m + 4)
      ensures m' == m + 4 && m2' == m2 + 4 && r' == r + 4
    {
      hide Reached, Left13, Right6, Left2, Right16, Shifted, Valid;
      Cursors(m, m2);
      FourShifts(a, m);
      a', b', m', m2', r' := RngStep(Left13(a), a, b, m, m2, r, s);
      FourShifts(a', m);
      a', b', m', m2', r' := RngStep(Right6(a'), a', b', m', m2', r', s);
      FourShifts(a', m);
      a', b', m', m2', r' := RngStep(Left2(a'), a', b', m', m2', r', s);
      FourShifts(a', m);
      a', b', m', m2', r' := RngStep(Right16(a'), a', b', m', m2', r', s);
    }

    method Isaac()
      requires Valid()
      modifies this`randa, this`randb, this`randc, randmem, randrsl
      ensures Valid() && Current() == Round(old(Current()))
      ensures Batch() == Results(old(Current()))
    {
      hide Reached, Steps, Sum;
      ghost var s := Begun(Current());
      randc := Sum(randc, 1);
      var a, b := randa, Sum(randb, randc);
      var r, m, m2 := 0, 0, 128;
      assert Reached(s, a, b, 0) by { Started(s, a, b); }
      while m < 128
        invariant Valid() && m % 4 == 0 && m <= 128 && m2 == m + 128 && r == m && Reached(s, a, b, m)
      {
        a, b, m, m2, r := FourSteps(a, b, m, m2, r, s);
      }
      m2 := 0;
      while m2 < 128
        invariant Valid() && m % 4 == 0 && m2 <= 128 && m == m2 + 128 && r == m && Reached(s, a, b, m)
      {
        a, b, m, m2, r := FourSteps(a, b, m, m2, r, s);
      }
      Ended(s, a, b);
      randb := b;
      randa := a;
    }

    lemma Started(s: State, a: Word, b: Word)
      requires Valid() && s == State(randmem[..], a, b, randc)
      ensures Reached(s, a, b, 0)
    {
      assert Steps(s, 0) == s;
    }

    lemma Ended(s: State, a: Word, b: Word)
      requires Valid() && Reached(s, a, b, 256)
      ensures State(randmem[..], a, b, randc) == Steps(s, 256)
      ensures forall j :: 0 <= j < 256 ==> randrsl[j] == Steps(s, j + 1).b
    {
      hide Steps;
    }

    /** The two loops that fill the memory, with the seed and without. */
    method FillSeeded(v: Eight) returns (w: Eight)
      requires Valid()
      modifies randmem
      ensures Valid() && randmem[..] == FirstPass(v, true, Batch()) && w == PassEnd(v, randrsl[..], 32)
    {
      hide Mix, Plus, Words, Zeros;
      ghost var src: Memory := randrsl[..];
      w := v;
      var i := 0;
      while i < 256
        invariant i % 8 == 0 && i <= 256
        invariant w == PassEnd(v, src, i / 8) && randmem[..i] == PassWords(v, src, i / 8)
      {
        ghost var was := randmem[..i];
        w := Plus(w, randrsl[..], i);
        w := MixMacro(w);
        Store(randmem, i, w);
        i := i + 8;
        assert randmem[..i] == was + Words(w);
      }
    }

    method FillMessy(v: Eight)
      requires Valid()
      modifies randmem
      ensures Valid() && randmem[..] == FirstPass(v, false, Batch())
    {
      hide Mix, Plus, Words, Zeros;
      var w, i := v, 0;
      while i < 256
        invariant i % 8 == 0 && i <= 256
        invariant w == PassEnd(v, Zeros(), i / 8) && randmem[..i] == PassWords(v, Zeros(), i / 8)
      {
        ghost var was := randmem[..i];
        PlusZeros(w, i);
        w := MixMacro(w);
        Store(randmem, i, w);
        i := i + 8;
        assert randmem[..i] == was + Words(w);
      }
    }

    method RandInit(flag: bool)
      requires Valid()
      modifies this, randmem, randrsl
      ensures Seeded() && start == Ready(flag, old(Batch())) && Drawn() == 0 && batches == 1
    {
      hide Start, PassEnd, PassWords, Zeros, Round, Results;
      randa, randb, randc := 0, 0, 0;
      var v := ScrambleWords();
      if flag {
        v := FillSeeded(v);
        Spread(v, randmem);
      } else {
        FillMessy(v);
      }
      start, batches := Current(), 1;
      assert start == Ready(flag, old(Batch()));
      OneRound(start);
      Isaac();
      randcnt := 256;
    }

    /** The rand macro: the counter wraps below zero before it is set again. */
    method Draw() returns (x: Word)
      requires Seeded()
      modifies this, randmem, randrsl
      ensures Seeded() && start == old(start) && Drawn() == old(Drawn()) + 1
      ensures old(Drawn()) >= 0 && x == Nth(start, old(Drawn()))
    {
      hide Round, Result;
      var empty := randcnt == 0;
      randcnt := if empty then 0xffff_ffff else randcnt - 1;
      if empty {
        Isaac();
        batches := batches + 1;
        randcnt := 255;
      }
      x := randrsl[randcnt];
      assert x == Results(Rounds(start, batches - 1))[randcnt];
    }

    /** `n` draws in a row. */
    method Draws(n: nat) returns (xs: seq<Word>)
      requires Seeded() && Drawn() == 0
      modifies this, randmem, randrsl
      ensures Seeded() && start == old(start) && Drawn() == n
      ensures |xs| == n && forall i :: 0 <= i < n ==> xs[i] == Nth(start, i)
    {
      hide Seeded, Nth;
      xs := [];
      for i := 0 to n
        invariant Seeded() && start == old(start) && Drawn() == i
        invariant |xs| == i && forall j :: 0 <= j < i ==> xs[j] == Nth(start, j)
      {
        var x := Draw();
        xs := xs + [x];
      }
    }
  }

  lemma OneRound(s: State)
    ensures Rounds(s, 0) == s && Rounds(s, 1) == Round(s)
  {
    hide Round;
  }

  /** The simple form and the fast form, seeded alike, hold the same state and results. */
  method Agree(simple: IsaacReadable.Generator, fast: RandCtx, flag: bool)
    requires simple.Valid() && fast.Valid() && simple.Batch() == fast.Batch()
    requires {simple.mm, simple.randrsl} !! {fast.randmem, fast.randrsl}
    modifies simple, simple.mm, simple.randrsl, fast, fast.randmem, fast.randrsl
    ensures simple.Valid() && fast.Valid() && simple.Current() == fast.Current()
    ensures simple.Batch() == fast.Batch() && simple.randcnt == fast.randcnt
  {
    hide Ready, Round, Results;
    simple.RandInit(flag);
    fast.RandInit(flag);
    OneRound(fast.start);
  }
}
