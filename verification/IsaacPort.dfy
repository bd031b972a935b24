/** src/isaac/randport.c: the generator on words that may be wider than 32 bits, here
    64, with the high bits masked off only where they would show. */
module IsaacPort {
  import opened Isaac
  import opened IsaacSeed
  import IsaacFast

  type Wide = bv64

  /** The 32 bits of a wide word that count. */
  function Low(x: Wide): Word {
    (x & 0xffff_ffff) as bv32
  }

  function Widened(x: Word): Wide {
    x as bv64
  }

  function Add(a: Wide, b: Wide): Wide {
    a + b
  }

  function Exclusive(a: Wide, b: Wide): Wide {
    a ^ b
  }

  /** `x & 0xffffffff`. */
  function Masked(x: Wide): Wide {
    x & 0xffff_ffff
  }

  /** The four shifts, the right ones masked. */
  function WideShifted(a: Wide, i: nat): Wide {
    if i % 4 == 0 then a << 13
    else if i % 4 == 1 then (a & 0xffff_ffff) >> 6
    else if i % 4 == 2 then a << 2
    else (a & 0xffff_ffff) >> 16
  }

  /** `ind`: an index into the memory. */
  function Index(x: Wide): (i: nat)
    ensures i < 256
  {
    IndexFits(x);
    ((x >> 2) & 255) as nat
  }

  lemma IndexFits(x: Wide)
    ensures ((x >> 2) & 255) as nat < 256
  {
    assert (x >> 2) & 255 < 256;
  }

  function HighBits(y: Wide): Wide {
    y >> 8
  }

  // ------------------------------------------------ the low bits go their own way

  /** On bit-vectors alone: the low half of a sum is the sum of the low halves. */
  lemma Halves(a: Wide, b: Wide)
    ensures ((a + b) & 0xffff_ffff) as bv32 == ((a & 0xffff_ffff) as bv32) + ((b & 0xffff_ffff) as bv32)
  {
  }

  lemma SumHalves(a: Wide, b: Wide)
    ensures ((a + b) & 0xffff_ffff) as bv32 == Sum((a & 0xffff_ffff) as bv32, (b & 0xffff_ffff) as bv32)
  {
    Halves(a, b);
  }

  lemma LowIs(a: Wide, b: Wide)
    ensures Low(a) == (a & 0xffff_ffff) as bv32
    ensures Low(Add(a, b)) == ((a + b) & 0xffff_ffff) as bv32
  {
  }

  lemma LowAdd(a: Wide, b: Wide)
    ensures Low(Add(a, b)) == Sum(Low(a), Low(b))
  {
    hide Low, Add, Sum;
    SumHalves(a, b);
    LowIs(a, b);
    LowIs(b, a);
  }

  lemma LowExclusive(a: Wide, b: Wide)
    ensures Low(Exclusive(a, b)) == Xor(Low(a), Low(b))
  {
  }

  lemma LowMasked(x: Wide)
    ensures Low(Masked(x)) == Low(x) && Masked(x) == Widened(Low(x))
  {
  }

  lemma LowShifted(a: Wide, i: nat)
    ensures Low(WideShifted(a, i)) == Shifted(Low(a), i)
  {
    hide Low, Left13, Right6, Left2, Right16;
    LowLeft13(a);
    LowRight6(a);
    LowLeft2(a);
    LowRight16(a);
  }

  lemma LowLeft13(a: Wide)
    ensures Low(a << 13) == Left13(Low(a))
  {
  }

  lemma LowRight6(a: Wide)
    ensures Low((a & 0xffff_ffff) >> 6) == Right6(Low(a))
  {
  }

  lemma LowLeft2(a: Wide)
    ensures Low(a << 2) == Left2(Low(a))
  {
  }

  lemma LowRight16(a: Wide)
    ensures Low((a & 0xffff_ffff) >> 16) == Right16(Low(a))
  {
  }

  lemma IndexMeans(x: Wide)
    ensures Index(x) == Slot(Low(x))
  {
  }

  lemma HighIndexMeans(y: Wide)
    ensures Index(HighBits(y)) == HighSlot(Low(y))
  {
  }

  function Lows(s: seq<Wide>): (r: seq<Word>)
    ensures |r| == |s| && forall i :: 0 <= i < |s| ==> r[i] == Low(s[i])
  {
    seq(|s|, i requires 0 <= i < |s| => Low(s[i]))
  }

  /** The eight working words, wide. */
  datatype WideEight = WideEight(a: Wide, b: Wide, c: Wide, d: Wide, e: Wide, f: Wide, g: Wide, h: Wide)

  function LowEight(v: WideEight): Eight {
    Eight(Low(v.a), Low(v.b), Low(v.c), Low(v.d), Low(v.e), Low(v.f), Low(v.g), Low(v.h))
  }

  function WideMixShift(x: Wide, k: nat): Wide {
    if k == 0 then x << 11
    else if k == 1 then (x & 0xffff_ffff) >> 2
    else if k == 2 then x << 8
    else if k == 3 then (x & 0xffff_ffff) >> 16
    else if k == 4 then x << 10
    else if k == 5 then (x & 0xffff_ffff) >> 4
    else if k == 6 then x << 8
    else (x & 0xffff_ffff) >> 9
  }

  lemma LowLeft11(a: Wide)
    ensures Low(a << 11) == Low(a) << 11
  {
  }

  lemma LowLeft8(a: Wide)
    ensures Low(a << 8) == Low(a) << 8
  {
  }

  lemma LowLeft10(a: Wide)
    ensures Low(a << 10) == Low(a) << 10
  {
  }

  lemma LowRight2(a: Wide)
    ensures Low((a & 0xffff_ffff) >> 2) == Low(a) >> 2
  {
  }

  lemma LowRight4(a: Wide)
    ensures Low((a & 0xffff_ffff) >> 4) == Low(a) >> 4
  {
  }

  lemma LowRight9(a: Wide)
    ensures Low((a & 0xffff_ffff) >> 9) == Low(a) >> 9
  {
  }

  lemma LowRightSixteen(a: Wide)
    ensures Low((a & 0xffff_ffff) >> 16) == Low(a) >> 16
  {
  }

  lemma LowMixShift(x: Wide, k: nat)
    ensures Low(WideMixShift(x, k)) == MixShift(Low(x), k)
  {
    hide Low;
    LowLeft11(x);
    LowLeft8(x);
    LowLeft10(x);
    LowRight2(x);
    LowRight4(x);
    LowRight9(x);
    LowRightSixteen(x);
  }

  /** One line of the mixing macro, `a ^= mix; d += a; b += c`, after which the names
      move on by one word. */
  method WideLine(v: WideEight, k: nat) returns (w: WideEight)
    ensures LowEight(w) == MixLine(LowEight(v), k)
  {
    hide Low, Xor, Sum, MixShift, WideMixShift, Exclusive, Add;
    var a := Exclusive(v.a, WideMixShift(v.b, k));
    var d := Add(v.d, a);
    var b := Add(v.b, v.c);
    LowMixShift(v.b, k);
    LowExclusive(v.a, WideMixShift(v.b, k));
    LowAdd(v.d, a);
    LowAdd(v.b, v.c);
    w := WideEight(b, v.c, d, v.e, v.f, v.g, v.h, a);
  }

  method WideMix(v: WideEight) returns (w: WideEight)
    ensures LowEight(w) == Mix(LowEight(v))
  {
    hide LowEight, MixLine;
    w := WideLine(v, 0);
    w := WideLine(w, 1);
    w := WideLine(w, 2);
    w := WideLine(w, 3);
    w := WideLine(w, 4);
    w := WideLine(w, 5);
    w := WideLine(w, 6);
    w := WideLine(w, 7);
    EightLines(LowEight(v));
  }

  /** `a += src[i]; ... h += src[i+7]`. */
  function WidePlus(v: WideEight, src: seq<Wide>, i: nat): WideEight
    requires i + 8 <= |src|
  {
    WideEight(Add(v.a, src[i]), Add(v.b, src[i + 1]), Add(v.c, src[i + 2]), Add(v.d, src[i + 3]),
              Add(v.e, src[i + 4]), Add(v.f, src[i + 5]), Add(v.g, src[i + 6]), Add(v.h, src[i + 7]))
  }

  /** The same while the words from `i` on are still those of `before`. */
  lemma LowPlusTail(v: WideEight, src: seq<Wide>, before: seq<Wide>, i: nat)
    requires |src| == |before| && i + 8 <= |src| && src[i..] == before[i..]
    ensures LowEight(WidePlus(v, src, i)) == Plus(LowEight(v), Lows(before), i)
  {
    hide Low, WidePlus, Plus;
    LowPlus(v, src, i);
    assert forall k :: i <= k < |src| ==> src[k] == src[i..][k - i] && before[k] == before[i..][k - i];
    assert Lows(src)[i..] == Lows(before)[i..];
    SamePlus(LowEight(v), Lows(src), Lows(before), i);
  }

  lemma LowPlus(v: WideEight, src: seq<Wide>, i: nat)
    requires i + 8 <= |src|
    ensures LowEight(WidePlus(v, src, i)) == Plus(LowEight(v), Lows(src), i)
  {
    hide Low, Add, Sum;
    LowAdd(v.a, src[i]);
    LowAdd(v.b, src[i + 1]);
    LowAdd(v.c, src[i + 2]);
    LowAdd(v.d, src[i + 3]);
    LowAdd(v.e, src[i + 4]);
    LowAdd(v.f, src[i + 5]);
    LowAdd(v.g, src[i + 6]);
    LowAdd(v.h, src[i + 7]);
  }

  function WideWords(v: WideEight): (s: seq<Wide>)
    ensures |s| == 8
  {
    [v.a, v.b, v.c, v.d, v.e, v.f, v.g, v.h]
  }

  /** What storing eight words after `m` adds to the memory. */
  lemma LowStored(m: seq<Wide>, v: WideEight)
    ensures Lows(m + WideWords(v)) == Lows(m) + Words(LowEight(v))
  {
    hide Low, Lows, WideWords, Words;
    LowWords(v);
    LowJoined(m, WideWords(v));
  }

  lemma LowJoined(m: seq<Wide>, n: seq<Wide>)
    ensures Lows(m + n) == Lows(m) + Lows(n)
  {
    hide Low;
  }

  lemma LowWords(v: WideEight)
    ensures Lows(WideWords(v)) == Words(LowEight(v))
  {
    hide Low, Lows;
  }

  /** The parts of a sequence around a block of eight. */
  lemma WidePieces(s: seq<Wide>, i: nat)
    requires i + 8 <= |s|
    ensures s[..i] == s[..i + 4][..i] && s[i..i + 4] == s[..i + 4][i..] && s[i..i + 8] == s[i..i + 4] + s[i + 4..i + 8]
  {
  }

  method WideStore(m: array<Wide>, i: nat, v: WideEight)
    requires i + 8 <= m.Length
    modifies m
    ensures m[..i] == old(m[..i]) && m[i..i + 8] == WideWords(v) && m[i + 8..] == old(m[i + 8..])
  {
    WideStoreFour(m, i, v.a, v.b, v.c, v.d);
    ghost var half := m[i..i + 4];
    WideStoreFour(m, i + 4, v.e, v.f, v.g, v.h);
    WidePieces(m[..], i);
    assert m[i + 8..] == old(m[i + 4..])[4..];
  }

  method WideStoreFour(m: array<Wide>, i: nat, a: Wide, b: Wide, c: Wide, d: Wide)
    requires i + 4 <= m.Length
    modifies m
    ensures m[..i] == old(m[..i]) && m[i..i + 4] == [a, b, c, d] && m[i + 4..] == old(m[i + 4..])
  {
    m[i], m[i + 1], m[i + 2], m[i + 3] := a, b, c, d;
  }

  /** One rngstep on wide words. */
  function WideStep(mem: seq<Wide>, a: Wide, b: Wide, i: nat): (seq<Wide>, Wide, Wide)
    requires |mem| == 256 && i < 256
  {
    var x := mem[i];
    var a' := Add(Exclusive(a, WideShifted(a, i)), mem[(i + 128) % 256]);
    var y := Add(Add(mem[Index(x)], a'), b);
    var mem' := mem[i := y];
    (mem', a', Masked(Add(mem'[Index(HighBits(y))], x)))
  }

  /** In the low bits it is the 32-bit step, and the new result has no other bits. */
  lemma LowStep(mem: seq<Wide>, a: Wide, b: Wide, c: Wide, i: nat)
    requires |mem| == 256 && i < 256
    ensures (var (m', a', b') := WideStep(mem, a, b, i);
      && |m'| == 256 && State(Lows(m'), Low(a'), Low(b'), Low(c)) == Step(State(Lows(mem), Low(a), Low(b), Low(c)), i)
      && b' == Widened(Low(b')))
  {
    hide Low, Slot, HighSlot, Sum, Xor, Shifted, Index, HighBits, WideShifted, Add, Exclusive, Masked, Widened;
    var x := mem[i];
    StepSum(a, mem[(i + 128) % 256], i);
    var a' := Add(Exclusive(a, WideShifted(a, i)), mem[(i + 128) % 256]);
    IndexMeans(x);
    LowAdd(mem[Index(x)], a');
    var y := Add(Add(mem[Index(x)], a'), b);
    LowAdd(Add(mem[Index(x)], a'), b);
    var mem' := mem[i := y];
    assert Lows(mem') == Lows(mem)[i := Low(y)];
    HighIndexMeans(y);
    LowAdd(mem'[Index(HighBits(y))], x);
    LowMasked(Add(mem'[Index(HighBits(y))], x));
  }

  lemma Stepped(s: State, n: nat)
    requires n < 256
    ensures Steps(s, n + 1) == Step(Steps(s, n), n)
  {
  }

  class PortCtx {
    var randcnt: nat
    const randrsl: array<Wide>
    const randmem: array<Wide>
    var randa: Wide
    var randb: Wide
    var randc: Wide
    ghost var start: State
    ghost var batches: nat

    ghost predicate Valid()
      reads this
    {
      randmem != randrsl && randmem.Length == 256 && randrsl.Length == 256
    }

    /** The 32-bit state that the wide words stand for. */
    ghost function Current(): State
      requires Valid()
      reads this, randmem
    {
      State(Lows(randmem[..]), Low(randa), Low(randb), Low(randc))
    }

    /** The low words of the results, which are the seed before seeding. */
    ghost function Batch(): Memory
      requires Valid()
      reads this, randrsl
    {
      Lows(randrsl[..])
    }

    /** Nothing is set above bit 31 of a result. */
    ghost predicate Clean()
      requires Valid()
      reads this, randrsl
    {
      forall j :: 0 <= j < 256 ==> randrsl[j] == Widened(Low(randrsl[j]))
    }

    ghost predicate Seeded()
      reads this, randmem, randrsl
    {
      && Valid() && randcnt <= 256 && batches > 0 && Clean()
      && Current() == Rounds(start, batches) && Batch() == Results(Rounds(start, batches - 1))
    }

    ghost function Drawn(): int
      reads this
    {
      256 * batches - randcnt
    }

    constructor ()
      ensures Valid() && fresh(randmem) && fresh(randrsl)
    {
      randrsl, randmem := new Wide[256](_ => 0), new Wide[256](_ => 0);
      randcnt, randa, randb, randc := 0, 0, 0, 0;
    }

    ghost predicate Reached(s: State, a: Wide, b: Wide, n: nat)
      requires Valid() && n <= 256
      reads this, randmem, randrsl
    {
      && State(Lows(randmem[..]), Low(a), Low(b), Low(randc)) == Steps(s, n)
      && forall j :: 0 <= j < n ==> randrsl[j] == Widened(Steps(s, j + 1).b)
    }

    /** One rngstep, from the pointers as the two phases keep them. */
    method RngStep(mix: Wide, a: Wide, b: Wide, m: nat, m2: nat, r: nat, ghost s: State)
      returns (a': Wide, b': Wide, m': nat, m2': nat, r': nat)
      requires Valid() && m < 256 && m2 == (m + 128) % 256 && r == m && mix == WideShifted(a, m) && Reached(s, a, b, m)
      modifies randmem, randrsl
      ensures Valid() && Reached(s, a', b', m + 1)
      ensures m' == m + 1 && m2' == m2 + 1 && r' == r + 1
    {
      hide Low, Steps, Step, Index, HighBits, WideShifted, Add, Exclusive, Masked, Widened;
      ghost var mm := randmem[..];
      LowStep(mm, a, b, randc, m);
      var x := randmem[m];
      a' := Add(Exclusive(a, mix), randmem[m2]);
      m2' := m2 + 1;
      var y := Add(Add(randmem[Index(x)], a'), b);
      randmem[m] := y;
      assert randmem[..] == mm[m := y];
      m' := m + 1;
      b' := Masked(Add(randmem[Index(HighBits(y))], x));
      assert (randmem[..], a', b') == WideStep(mm, a, b, m);
      randrsl[r] := b';
      r' := r + 1;
      assert randmem[..] == mm[m := y];
      Stepped(s, m);
    }

    method FourSteps(a: Wide, b: Wide, m: nat, m2: nat, r: nat, ghost s: State)
      returns (a': Wide, b': Wide, m': nat, m2': nat, r': nat)
      requires Valid() && m + 4 <= 256 && m % 4 == 0 && m2 == (m + 128) % 256 && r == m && Reached(s, a, b, m)
      modifies randmem, randrsl
      ensures Valid() && Reached(s, a', b', m + 4)
      ensures m' == m + 4 && m2' == m2 + 4 && r' == r + 4
    {
      hide Reached;
      a', b', m', m2', r' := RngStep(a << 13, a, b, m, m2, r, s);
      a', b', m', m2', r' := RngStep((a' & 0xffff_ffff) >> 6, a', b', m', m2', r', s);
      a', b', m', m2', r' := RngStep(a' << 2, a', b', m', m2', r', s);
      a', b', m', m2', r' := RngStep((a' & 0xffff_ffff) >> 16, a', b', m', m2', r', s);
    }

    /** The wide round keeps to the 32-bit one, and every result is exact. */
    method Isaac()
      requires Valid()
      modifies this`randa, this`randb, this`randc, randmem, randrsl
      ensures Valid() && Current() == Round(old(Current()))
      ensures Clean() && Batch() == Results(old(Current()))
    {
      hide Reached, Steps, Sum, Low, Widened, Add;
      ghost var s := Begun(Current());
      LowAdd(randc, 1);
      assert Low(1) == 1 by { LowOne(); }
      randc := Add(randc, 1);
      LowAdd(randb, randc);
      var a, b := randa, Add(randb, randc);
      var r, m, m2 := 0, 0, 128;
      Started(s, a, b);
      while m < 128
        invariant Valid() && m % 4 == 0 && m <= 128 && m2 == m + 128 && r == m && Reached(s, a, b, m)
      {
        a, b, m, m2, r := FourSteps(a, b, m, m2, r, s);
      }
      m2 := 0;
      while m2 < 128
        invariant Valid() && m % 4 == 0 && m2 <= 128 && m == m2 + 128 && r == m && Reached(s, a, b, m)
      {
        a, b, m, m2, r := FourSteps(a, b, m, m2, r, s);
      }
      Ended(s, a, b);
      randb := b;
      randa := a;
    }

    lemma Started(s: State, a: Wide, b: Wide)
      requires Valid() && s == State(Lows(randmem[..]), Low(a), Low(b), Low(randc))
      ensures Reached(s, a, b, 0)
    {
      assert Steps(s, 0) == s;
    }

    lemma Ended(s: State, a: Wide, b: Wide)
      requires Valid() && Reached(s, a, b, 256)
      ensures State(Lows(randmem[..]), Low(a), Low(b), Low(randc)) == Steps(s, 256)
      ensures Clean() && forall j :: 0 <= j < 256 ==> Low(randrsl[j]) == Steps(s, j + 1).b
    {
      hide Steps, Low, Widened;
      forall j | 0 <= j < 256 ensures Low(randrsl[j]) == Steps(s, j + 1).b {
        LowWidened(Steps(s, j + 1).b);
      }
    }

    /** The two loops that fill the memory, with the seed and without. */
    method FillSeeded(v: WideEight) returns (w: WideEight)
      requires Valid()
      modifies randmem
      ensures Valid() && Lows(randmem[..]) == FirstPass(LowEight(v), true, Batch())
      ensures LowEight(w) == PassEnd(LowEight(v), Batch(), 32)
    {
      hide Mix, Plus, Words, WideWords, Zeros, Lows, LowEight, WidePlus;
      ghost var src, u := Batch(), LowEight(v);
      w := v;
      var i := 0;
      while i < 256
        invariant i % 8 == 0 && i <= 256
        invariant LowEight(w) == PassEnd(u, src, i / 8) && Lows(randmem[..i]) == PassWords(u, src, i / 8)
      {
        ghost var was := randmem[..i];
        LowPlus(w, randrsl[..], i);
        w := WidePlus(w, randrsl[..], i);
        w := WideMix(w);
        WideStore(randmem, i, w);
        i := i + 8;
        assert randmem[..i] == was + WideWords(w);
        LowStored(was, w);
      }
      assert randmem[..256] == randmem[..];
    }

    /** The second pass over the memory. */
    method Spread(v: WideEight)
      requires Valid()
      modifies randmem
      ensures Valid() && Lows(randmem[..]) == PassWords(LowEight(v), old(Lows(randmem[..])), 32)
    {
      hide Mix, Plus, Words, WideWords, Low, Lows, LowEight, WidePlus;
      ghost var src, m, u := Lows(randmem[..]), randmem[..], LowEight(v);
      var w, i := v, 0;
      while i < 256
        invariant i % 8 == 0 && i <= 256 && randmem[i..] == m[i..]
        invariant LowEight(w) == PassEnd(u, src, i / 8) && Lows(randmem[..i]) == PassWords(u, src, i / 8)
      {
        ghost var was := randmem[..i];
        LowPlusTail(w, randmem[..], m, i);
        w := WidePlus(w, randmem[..], i);
        w := WideMix(w);
        assert randmem[i + 8..] == randmem[i..][8..] == m[i + 8..];
        WideStore(randmem, i, w);
        i := i + 8;
        assert randmem[..i] == was + WideWords(w);
        LowStored(was, w);
      }
      assert randmem[..256] == randmem[..];
    }

    method FillMessy(v: WideEight)
      requires Valid()
      modifies randmem
      ensures Valid() && Lows(randmem[..]) == FirstPass(LowEight(v), false, Batch())
    {
      hide Mix, Plus, Words, WideWords, Zeros, Lows, LowEight;
      ghost var u := LowEight(v);
      var w, i := v, 0;
      while i < 256
        invariant i % 8 == 0 && i <= 256
        invariant LowEight(w) == PassEnd(u, Zeros(), i / 8) && Lows(randmem[..i]) == PassWords(u, Zeros(), i / 8)
      {
        ghost var was := randmem[..i];
        PlusZeros(LowEight(w), i);
        w := WideMix(w);
        WideStore(randmem, i, w);
        i := i + 8;
        assert randmem[..i] == was + WideWords(w);
        LowStored(was, w);
      }
      assert randmem[..256] == randmem[..];
    }

    method RandInit(flag: bool)
      requires Valid()
      modifies this, randmem, randrsl
      ensures Seeded() && start == Ready(flag, old(Batch())) && Drawn() == 0 && batches == 1
    {
      hide Start, PassEnd, PassWords, Zeros, Round, Results, Low, LowEight, Widened;
      randa, randb, randc := 0, 0, 0;
      LowOne();
      var v := WideScramble();
      if flag {
        v := FillSeeded(v);
        Spread(v);
      } else {
        FillMessy(v);
      }
      start, batches := Current(), 1;
      assert start == Ready(flag, old(Batch()));
      IsaacFast.OneRound(start);
      Isaac();
      randcnt := 256;
    }

    /** The rand macro, on wide words: the very value that 32-bit words would give. */
    method Draw() returns (x: Wide)
      requires Seeded()
      modifies this, randmem, randrsl
      ensures Seeded() && start == old(start) && Drawn() == old(Drawn()) + 1
      ensures old(Drawn()) >= 0 && x == Widened(Nth(start, old(Drawn())))
    {
      hide Round, Result, Low, Widened;
      var empty := randcnt == 0;
      randcnt := if empty then 0xffff_ffff_ffff_ffff else randcnt - 1;
      if empty {
        Isaac();
        batches := batches + 1;
        randcnt := 255;
      }
      x := randrsl[randcnt];
      assert Low(x) == Batch()[randcnt] == Results(Rounds(start, batches - 1))[randcnt];
    }
  }

  lemma LowOne()
    ensures Low(1) == 1 && Low(0) == 0
  {
  }

  lemma LowWidened(x: Word)
    ensures Low(Widened(x)) == x
  {
  }

  lemma StepSum(a: Wide, w: Wide, i: nat)
    ensures Low(Add(Exclusive(a, WideShifted(a, i)), w)) == Sum(Low(w), Xor(Low(a), Shifted(Low(a), i)))
  {
    hide Low, Add, Exclusive, WideShifted, Shifted, Xor, Sum;
    LowAdd(Exclusive(a, WideShifted(a, i)), w);
    LowExclusive(a, WideShifted(a, i));
    LowShifted(a, i);
    SumSwaps(Xor(Low(a), Shifted(Low(a), i)), Low(w));
  }

  lemma SumSwaps(a: Word, b: Word)
    ensures Sum(a, b) == Sum(b, a)
  {
  }

  lemma LowGolden()
    ensures Low(0x9e37_79b9) == GOLDEN
  {
  }

  method WideScramble() returns (v: WideEight)
    ensures LowEight(v) == Start()
  {
    hide Mix, Low;
    LowGolden();
    v := WideEight(0x9e37_79b9, 0x9e37_79b9, 0x9e37_79b9, 0x9e37_79b9, 0x9e37_79b9, 0x9e37_79b9, 0x9e37_79b9, 0x9e37_79b9);
    for i := 0 to 4
      invariant LowEight(v) == Scrambled(i)
    {
      hide LowEight;
      v := WideMix(v);
    }
  }

  /** The fast form and the portable form, seeded alike in the low bits, hold the same
      state in the low bits and exactly the same results. */
  method Agree(fast: IsaacFast.RandCtx, port: PortCtx, flag: bool)
    requires fast.Valid() && port.Valid() && fast.Batch() == port.Batch()
    modifies fast, fast.randmem, fast.randrsl, port, port.randmem, port.randrsl
    ensures fast.Valid() && port.Valid() && fast.Current() == port.Current() && fast.randcnt == port.randcnt
    ensures forall j :: 0 <= j < 256 ==> port.randrsl[j] == Widened(fast.randrsl[j])
  {
    hide Ready, Round, Results, Low, Widened;
    ghost var seed := fast.Batch();
    fast.RandInit(flag);
    port.RandInit(flag);
    assert port.start == fast.start == Ready(flag, seed);
    forall j | 0 <= j < 256 ensures port.randrsl[j] == Widened(fast.randrsl[j]) {
      assert port.Batch()[j] == fast.Batch()[j];
    }
  }
}
