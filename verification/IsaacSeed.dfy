/** Seeding the ISAAC generator (randinit of src/isaac/readable.c and src/isaac/rand.c):
    the eight-word mixing, the two passes over the seed, and the proof that two
    different seeds never lead to the same state. */
module IsaacSeed {
  import opened Isaac

  /** The eight working words. */
  datatype Eight = Eight(a: Word, b: Word, c: Word, d: Word, e: Word, f: Word, g: Word, h: Word)

  /** The shifts of the eight lines of the mixing. */
  function MixShift(x: Word, k: nat): Word {
    if k == 0 then x << 11
    else if k == 1 then x >> 2
    else if k == 2 then x << 8
    else if k == 3 then x >> 16
    else if k == 4 then x << 10
    else if k == 5 then x >> 4
    else if k == 6 then x << 8
    else x >> 9
  }

  /** Line `k` of the mixing, `a ^= shift(b); d += a; b += c`, after which the
      names move on by one word. */
  function MixLine(v: Eight, k: nat): Eight {
    var a := Xor(v.a, MixShift(v.b, k));
    Eight(Sum(v.b, v.c), v.c, Sum(v.d, a), v.e, v.f, v.g, v.h, a)
  }

  function MixLines(v: Eight, n: nat): Eight {
    if n == 0 then v else MixLine(MixLines(v, n - 1), n - 1)
  }

  const LINES: nat := 8

  function Mix(v: Eight): Eight {
    MixLines(v, LINES)
  }

  function UnmixLine(w: Eight, k: nat): Eight {
    var b := Difference(w.a, w.b);
    Eight(Xor(w.h, MixShift(b, k)), b, w.b, Difference(w.c, w.h), w.d, w.e, w.f, w.g)
  }

  lemma UnmixLineUndoes(v: Eight, k: nat)
    ensures UnmixLine(MixLine(v, k), k) == v
  {
    hide Xor, Sum, Difference, MixShift;
    var w := MixLine(v, k);
    SumDifference(v.b, v.c);
    SumDifference(v.d, w.h);
    XorCancels(v.a, MixShift(v.b, k));
  }

  /** Mixing loses nothing. */
  lemma {:induction false} MixInjective(v: Eight, w: Eight, n: nat)
    requires MixLines(v, n) == MixLines(w, n)
    ensures v == w
  {
    hide MixLine, UnmixLine;
    if n > 0 {
      UnmixLineUndoes(MixLines(v, n - 1), n - 1);
      UnmixLineUndoes(MixLines(w, n - 1), n - 1);
      MixInjective(v, w, n - 1);
    }
  }

  // ------------------------------------------------------------------ passes

  function Words(v: Eight): (s: seq<Word>)
    ensures |s| == 8
  {
    [v.a, v.b, v.c, v.d, v.e, v.f, v.g, v.h]
  }

  function Plus(v: Eight, src: seq<Word>, i: nat): Eight
    requires i + 8 <= |src|
  {
    Eight(Sum(v.a, src[i]), Sum(v.b, src[i + 1]), Sum(v.c, src[i + 2]), Sum(v.d, src[i + 3]),
          Sum(v.e, src[i + 4]), Sum(v.f, src[i + 5]), Sum(v.g, src[i + 6]), Sum(v.h, src[i + 7]))
  }

  /** The working words after `n` blocks of eight. */
  function PassEnd(v: Eight, src: seq<Word>, n: nat): Eight
    requires 8 * n <= |src|
  {
    if n == 0 then v else Mix(Plus(PassEnd(v, src, n - 1), src, 8 * (n - 1)))
  }

  /** What the first `n` blocks of a pass leave in the memory. */
  function PassWords(v: Eight, src: seq<Word>, n: nat): (s: seq<Word>)
    requires 8 * n <= |src|
    ensures |s| == 8 * n
  {
    if n == 0 then [] else PassWords(v, src, n - 1) + Words(PassEnd(v, src, n))
  }

  const GOLDEN: Word := 0x9e3779b9

  function Scrambled(n: nat): Eight {
    if n == 0 then Eight(GOLDEN, GOLDEN, GOLDEN, GOLDEN, GOLDEN, GOLDEN, GOLDEN, GOLDEN) else Mix(Scrambled(n - 1))
  }

  const SCRAMBLES: nat := 4

  /** The working words when the passes start. */
  function Start(): Eight {
    Scrambled(SCRAMBLES)
  }

  function Zeros(): Memory {
    seq(256, _ => 0)
  }

  /** The memory after the first pass, from working words `v`; without a seed nothing is added. */
  function FirstPass(v: Eight, flag: bool, seed: Memory): Memory {
    PassWords(v, if flag then seed else Zeros(), |seed| / 8)
  }

  function SecondPass(v: Eight, seed: Memory): Memory {
    PassWords(PassEnd(v, seed, |seed| / 8), FirstPass(v, true, seed), |seed| / 8)
  }

  /** The memory before the first round. */
  function Seeded(v: Eight, flag: bool, seed: Memory): State {
    State(if flag then SecondPass(v, seed) else FirstPass(v, false, seed), 0, 0, 0)
  }

  /** The state before the first round, as the code starts the working words. */
  function Ready(flag: bool, seed: Memory): State {
    Seeded(Start(), flag, seed)
  }

  // ------------------------------------------------------- the code's own steps

  lemma EightLines(v: Eight)
    ensures Mix(v) == MixLine(MixLine(MixLine(MixLine(MixLine(MixLine(MixLine(MixLine(v, 0), 1), 2), 3), 4), 5), 6), 7)
  {
    hide MixLine;
    assert MixLines(v, 1) == MixLine(MixLines(v, 0), 0);
    assert MixLines(v, 2) == MixLine(MixLines(v, 1), 1);
    assert MixLines(v, 3) == MixLine(MixLines(v, 2), 2);
    assert MixLines(v, 4) == MixLine(MixLines(v, 3), 3);
    assert MixLines(v, 5) == MixLine(MixLines(v, 4), 4);
    assert MixLines(v, 6) == MixLine(MixLines(v, 5), 5);
    assert MixLines(v, 7) == MixLine(MixLines(v, 6), 6);
  }

  /** The mixing macro, which is the same text in both files. */
  method MixMacro(v: Eight) returns (w: Eight)
    ensures w == Mix(v)
  {
    hide Xor, Sum, MixShift, MixLines;
    ghost var u := v;
    var Eight(a, b, c, d, e, f, g, h) := v;
    a := Xor(a, MixShift(b, 0)); d := Sum(d, a); b := Sum(b, c);
    assert Eight(b, c, d, e, f, g, h, a) == MixLine(u, 0);
    u := MixLine(u, 0);
    b := Xor(b, MixShift(c, 1)); e := Sum(e, b); c := Sum(c, d);
    assert Eight(c, d, e, f, g, h, a, b) == MixLine(u, 1);
    u := MixLine(u, 1);
    c := Xor(c, MixShift(d, 2)); f := Sum(f, c); d := Sum(d, e);
    assert Eight(d, e, f, g, h, a, b, c) == MixLine(u, 2);
    u := MixLine(u, 2);
    d := Xor(d, MixShift(e, 3)); g := Sum(g, d); e := Sum(e, f);
    assert Eight(e, f, g, h, a, b, c, d) == MixLine(u, 3);
    u := MixLine(u, 3);
    e := Xor(e, MixShift(f, 4)); h := Sum(h, e); f := Sum(f, g);
    assert Eight(f, g, h, a, b, c, d, e) == MixLine(u, 4);
    u := MixLine(u, 4);
    f := Xor(f, MixShift(g, 5)); a := Sum(a, f); g := Sum(g, h);
    assert Eight(g, h, a, b, c, d, e, f) == MixLine(u, 5);
    u := MixLine(u, 5);
    g := Xor(g, MixShift(h, 6)); b := Sum(b, g); h := Sum(h, a);
    assert Eight(h, a, b, c, d, e, f, g) == MixLine(u, 6);
    u := MixLine(u, 6);
    h := Xor(h, MixShift(a, 7)); c := Sum(c, h); a := Sum(a, b);
    assert Eight(a, b, c, d, e, f, g, h) == MixLine(u, 7);
    u := MixLine(u, 7);
    w := Eight(a, b, c, d, e, f, g, h);
    EightLines(v);
  }

  /** The parts of a sequence around a block of eight. */
  lemma Pieces(s: seq<Word>, i: nat)
    requires i + 8 <= |s|
    ensures s[..i] == s[..i + 4][..i] && s[i..i + 4] == s[..i + 4][i..] && s[i..i + 8] == s[i..i + 4] + s[i + 4..i + 8]
  {
  }

  /** `m[i] = a; ... m[i+7] = h`. */
  method Store(m: array<Word>, i: nat, v: Eight)
    requires i + 8 <= m.Length
    modifies m
    ensures m[..i] == old(m[..i]) && m[i..i + 8] == Words(v) && m[i + 8..] == old(m[i + 8..])
  {
    StoreFour(m, i, v.a, v.b, v.c, v.d);
    ghost var half := m[i..i + 4];
    StoreFour(m, i + 4, v.e, v.f, v.g, v.h);
    Pieces(m[..], i);
    assert m[i + 8..] == old(m[i + 4..])[4..];
  }

  method StoreFour(m: array<Word>, i: nat, a: Word, b: Word, c: Word, d: Word)
    requires i + 4 <= m.Length
    modifies m
    ensures m[..i] == old(m[..i]) && m[i..i + 4] == [a, b, c, d] && m[i + 4..] == old(m[i + 4..])
  {
    m[i], m[i + 1], m[i + 2], m[i + 3] := a, b, c, d;
  }

  /** The four scrambling rounds. */
  method ScrambleWords() returns (v: Eight)
    ensures v == Start()
  {
    hide Mix;
    v := Eight(GOLDEN, GOLDEN, GOLDEN, GOLDEN, GOLDEN, GOLDEN, GOLDEN, GOLDEN);
    for i := 0 to 4
      invariant v == Scrambled(i)
    {
      v := MixMacro(v);
    }
  }

  lemma SamePlus(v: Eight, s: seq<Word>, t: seq<Word>, i: nat)
    requires i + 8 <= |s| && i + 8 <= |t| && s[i..] == t[i..]
    ensures Plus(v, s, i) == Plus(v, t, i)
  {
    assert forall k :: 0 <= k < 8 ==> s[i..][k] == s[i + k] && t[i..][k] == t[i + k];
  }

  lemma PlusZeros(v: Eight, i: nat)
    requires i + 8 <= 256
    ensures Plus(v, Zeros(), i) == v
  {
    hide Sum;
    SumZero(v.a); SumZero(v.b); SumZero(v.c); SumZero(v.d);
    SumZero(v.e); SumZero(v.f); SumZero(v.g); SumZero(v.h);
  }

  lemma SumZero(a: Word)
    ensures Sum(a, 0) == a
  {
  }

  /** The second pass, which is the same text in both files: make all of the seed
      affect all of the memory. */
  method Spread(v: Eight, m: array<Word>)
    requires m.Length == 256
    modifies m
    ensures m[..] == PassWords(v, old(m[..]), 32)
  {
    hide Mix, Plus, Words;
    ghost var src := m[..];
    var w, i := v, 0;
    while i < 256
      invariant i % 8 == 0 && i <= 256 && m[i..] == src[i..]
      invariant w == PassEnd(v, src, i / 8) && m[..i] == PassWords(v, src, i / 8)
    {
      ghost var was := m[..i];
      SamePlus(w, m[..], src, i);
      w := Plus(w, m[..], i);
      w := MixMacro(w);
      Store(m, i, w);
      i := i + 8;
      assert m[..i] == was + Words(w);
    }
  }

  // ------------------------------------------------- different seeds stay apart

  lemma SumInjective(a: Word, x: Word, y: Word)
    requires Sum(a, x) == Sum(a, y)
    ensures x == y
  {
    SumDifference(a, x);
    SumDifference(a, y);
  }

  lemma PlusInjective(v: Eight, s: seq<Word>, t: seq<Word>, i: nat)
    requires i + 8 <= |s| && i + 8 <= |t| && Plus(v, s, i) == Plus(v, t, i)
    ensures s[i..i + 8] == t[i..i + 8]
  {
    hide Sum;
    SumInjective(v.a, s[i], t[i]);
    SumInjective(v.b, s[i + 1], t[i + 1]);
    SumInjective(v.c, s[i + 2], t[i + 2]);
    SumInjective(v.d, s[i + 3], t[i + 3]);
    SumInjective(v.e, s[i + 4], t[i + 4]);
    SumInjective(v.f, s[i + 5], t[i + 5]);
    SumInjective(v.g, s[i + 6], t[i + 6]);
    SumInjective(v.h, s[i + 7], t[i + 7]);
  }

  /** One block of the source is determined by the working words before and after it. */
  lemma BlockDetermined(v: Eight, s: seq<Word>, w: Eight, t: seq<Word>, j: nat)
    requires 8 * (j + 1) <= |s| && 8 * (j + 1) <= |t|
    requires PassEnd(v, s, j) == PassEnd(w, t, j) && PassEnd(v, s, j + 1) == PassEnd(w, t, j + 1)
    ensures s[8 * j..8 * j + 8] == t[8 * j..8 * j + 8]
  {
    hide Plus, MixLines;
    MixInjective(Plus(PassEnd(v, s, j), s, 8 * j), Plus(PassEnd(w, t, j), t, 8 * j), 8);
    PlusInjective(PassEnd(v, s, j), s, t, 8 * j);
  }

  /** The memory a pass leaves shows the working words after every block. */
  lemma {:induction false} WordsShowEnds(v: Eight, s: seq<Word>, w: Eight, t: seq<Word>, n: nat, j: nat)
    requires 8 * n <= |s| && 8 * n <= |t| && 1 <= j <= n
    requires PassWords(v, s, n) == PassWords(w, t, n)
    ensures PassEnd(v, s, j) == PassEnd(w, t, j)
  {
    hide PassEnd;
    var x, y := PassEnd(v, s, n), PassEnd(w, t, n);
    var p, q := PassWords(v, s, n - 1), PassWords(w, t, n - 1);
    assert p + Words(x) == q + Words(y) && |p| == |q|;
    assert p == (p + Words(x))[..|p|] && q == (q + Words(y))[..|q|];
    assert Words(x) == (p + Words(x))[|p|..] && Words(y) == (q + Words(y))[|q|..];
    WordsInjective(x, y);
    if j < n {
      WordsShowEnds(v, s, w, t, n - 1, j);
    }
  }

  lemma WordsInjective(x: Eight, y: Eight)
    requires Words(x) == Words(y)
    ensures x == y
  {
    assert Words(x)[0] == Words(y)[0] && Words(x)[1] == Words(y)[1] && Words(x)[2] == Words(y)[2];
    assert Words(x)[3] == Words(y)[3] && Words(x)[4] == Words(y)[4] && Words(x)[5] == Words(y)[5];
    assert Words(x)[6] == Words(y)[6] && Words(x)[7] == Words(y)[7];
  }

  /** Blocks make up the whole. */
  lemma {:induction false} SameBlocks(s: seq<Word>, t: seq<Word>, n: nat)
    requires 8 * n <= |s| && 8 * n <= |t|
    requires forall j :: 0 <= j < n ==> s[8 * j..8 * j + 8] == t[8 * j..8 * j + 8]
    ensures s[..8 * n] == t[..8 * n]
  {
    if n > 0 {
      SameBlocks(s, t, n - 1);
      var k := 8 * (n - 1);
      assert s[..8 * n] == s[..k] + s[k..k + 8] && t[..8 * n] == t[..k] + t[k..k + 8];
    }
  }

  /** A pass from the same working words loses nothing of its source. */
  lemma PassInjective(v: Eight, s: Memory, t: Memory)
    requires PassWords(v, s, 32) == PassWords(v, t, 32)
    ensures s == t
  {
    hide PassEnd, PassWords;
    forall j | 0 <= j < 32 ensures s[8 * j..8 * j + 8] == t[8 * j..8 * j + 8] {
      if j == 0 { EndZero(v, s); EndZero(v, t); } else { WordsShowEnds(v, s, v, t, 32, j); }
      WordsShowEnds(v, s, v, t, 32, j + 1);
      BlockDetermined(v, s, v, t, j);
    }
    SameBlocks(s, t, 32);
    assert s[..256] == s && t[..256] == t;
  }

  lemma EndZero(v: Eight, s: seq<Word>)
    ensures PassEnd(v, s, 0) == v
  {
  }

  lemma LastBlock(v: Eight, s: Memory)
    ensures PassWords(v, s, 32)[248..256] == Words(PassEnd(v, s, 32))
  {
    hide PassEnd;
    assert PassWords(v, s, 32) == PassWords(v, s, 31) + Words(PassEnd(v, s, 32));
  }

  /** The second pass starts from working words that depend on the seed; they can
      still be read off its result, since its last block comes after them. */
  lemma SecondPassInjective(e: Eight, s: Memory, t: Memory)
    requires SecondPass(e, s) == SecondPass(e, t)
    ensures s == t
  {
    hide PassEnd, PassWords;
    var v, w := PassEnd(e, s, 32), PassEnd(e, t, 32);
    var m, n := FirstPass(e, true, s), FirstPass(e, true, t);
    WordsShowEnds(v, m, w, n, 32, 31);
    WordsShowEnds(v, m, w, n, 32, 32);
    BlockDetermined(v, m, w, n, 31);
    LastBlock(e, s);
    LastBlock(e, t);
    WordsInjective(v, w);
    PassInjective(v, m, n);
    PassInjective(e, s, t);
  }

  /** The state after seeding gives the seed back, whatever the working words start from. */
  lemma SeededInjective(v: Eight, s: Memory, t: Memory)
    requires Round(Seeded(v, true, s)) == Round(Seeded(v, true, t))
    ensures s == t
  {
    hide Round, SecondPass;
    RoundInjective(Seeded(v, true, s), Seeded(v, true, t));
    SecondPassInjective(v, s, t);
  }

  /** Two different seeds never give the same state. */
  lemma SeedInjective(s: Memory, t: Memory)
    requires s != t
    ensures Round(Ready(true, s)) != Round(Ready(true, t))
  {
    hide Round, Seeded, Start;
    if Round(Ready(true, s)) == Round(Ready(true, t)) {
      SeededInjective(Start(), s, t);
    }
  }
}
