/** One round of the ISAAC generator on 32-bit words, as the single loop of
    src/isaac/readable.c computes it, and its inverse. */
module Isaac {

  type Word = bv32

  type Memory = m: seq<Word> | |m| == 256 witness seq(256, _ => 0)

  /** Word arithmetic, modulo 2^32. */
  function Sum(a: Word, b: Word): Word {
    a + b
  }

  function Difference(a: Word, b: Word): Word {
    a - b
  }

  function Xor(a: Word, b: Word): Word {
    a ^ b
  }

  /** What survives a round: the memory, the two accumulators and the counter. */
  datatype State = State(mem: Memory, a: Word, b: Word, c: Word)

  /** The word of the memory selected by bits 2 to 9. */
  function Slot(x: Word): (i: nat)
    ensures i < 256
  {
    ((x >> 2) % 256) as nat
  }

  /** The word of the memory selected by bits 10 to 17. */
  function HighSlot(x: Word): (i: nat)
    ensures i < 256
  {
    ((x >> 10) % 256) as nat
  }

  function Left13(a: Word): Word {
    a << 13
  }

  function Right6(a: Word): Word {
    a >> 6
  }

  function Left2(a: Word): Word {
    a << 2
  }

  function Right16(a: Word): Word {
    a >> 16
  }

  /** The four shifts, taken in turn. */
  function Shifted(a: Word, i: nat): Word {
    if i % 4 == 0 then Left13(a) else if i % 4 == 1 then Right6(a) else if i % 4 == 2 then Left2(a) else Right16(a)
  }

  function Step(s: State, i: nat): State
    requires i < 256
  {
    var x := s.mem[i];
    var a := Sum(s.mem[(i + 128) % 256], Xor(s.a, Shifted(s.a, i)));
    var y := Sum(Sum(s.mem[Slot(x)], a), s.b);
    var mem: Memory := s.mem[i := y];
    State(mem, a, Sum(mem[HighSlot(y)], x), s.c)
  }

  function Steps(s: State, n: nat): State
    requires n <= 256
  {
    if n == 0 then s else Step(Steps(s, n - 1), n - 1)
  }

  function Begun(s: State): State {
    s.(c := Sum(s.c, 1), b := Sum(s.b, Sum(s.c, 1)))
  }

  function Round(s: State): State {
    Steps(Begun(s), 256)
  }

  /** What a round puts out at index `i`: the second accumulator after that step. */
  function Result(s: State, i: nat): Word
    requires i < 256
  {
    Steps(Begun(s), i + 1).b
  }

  /** The batch of results of a round. */
  function Results(s: State): Memory {
    seq(256, j requires 0 <= j < 256 => Result(s, j))
  }

  /** The state after `k` rounds. */
  function Rounds(s: State, k: nat): State {
    if k == 0 then s else Round(Rounds(s, k - 1))
  }

  /** Draw number `n`: the batches come in order, each from its last word to its first. */
  function Nth(s: State, n: nat): Word {
    Result(Rounds(s, n / 256), 255 - n % 256)
  }

  // --------------------------------------------------------- running backwards

  /** The word whose exclusive-or with its own shift is `v`: `v` and its repeated
      shifts, of which no more than fifteen leave anything, summed. */
  function Unshifted(v: Word, i: nat): Word {
    Horner(v, i, 15)
  }

  function Horner(v: Word, i: nat, n: nat): Word {
    if n == 0 then v else Xor(v, Shifted(Horner(v, i, n - 1), i))
  }

  ghost function Repeated(v: Word, i: nat, n: nat): Word {
    if n == 0 then v else Shifted(Repeated(v, i, n - 1), i)
  }

  lemma XorCancels(a: Word, b: Word)
    ensures Xor(Xor(a, b), b) == a
  {
  }

  lemma XorJoins(a: Word, b: Word, c: Word)
    ensures Xor(Xor(a, b), Xor(b, c)) == Xor(a, c)
  {
  }

  lemma XorMoves(a: Word, b: Word, c: Word)
    ensures Xor(a, Xor(b, c)) == Xor(Xor(a, b), c)
  {
  }

  lemma XorZero(a: Word)
    ensures Xor(a, 0) == a
  {
  }

  lemma Left13Xor(a: Word, b: Word)
    ensures Left13(Xor(a, b)) == Xor(Left13(a), Left13(b))
  {
  }

  lemma Right6Xor(a: Word, b: Word)
    ensures Right6(Xor(a, b)) == Xor(Right6(a), Right6(b))
  {
  }

  lemma Left2Xor(a: Word, b: Word)
    ensures Left2(Xor(a, b)) == Xor(Left2(a), Left2(b))
  {
  }

  lemma Right16Xor(a: Word, b: Word)
    ensures Right16(Xor(a, b)) == Xor(Right16(a), Right16(b))
  {
  }

  lemma ShiftXor(a: Word, b: Word, i: nat)
    ensures Shifted(Xor(a, b), i) == Xor(Shifted(a, i), Shifted(b, i))
  {
    hide Left13, Right6, Left2, Right16, Xor;
    Left13Xor(a, b);
    Right6Xor(a, b);
    Left2Xor(a, b);
    Right16Xor(a, b);
  }

  lemma {:induction false} RepeatedSum(v: Word, i: nat, m: nat, n: nat)
    ensures Repeated(Repeated(v, i, m), i, n) == Repeated(v, i, m + n)
  {
    hide Shifted;
    if n > 0 { RepeatedSum(v, i, m, n - 1); }
  }

  function Left16(a: Word): Word {
    a << 16
  }

  lemma Left13Out(v: Word)
    ensures Left13(Left13(Left13(v))) == 0
  {
  }

  lemma Right6Out(v: Word)
    ensures Right6(Right6(Right6(Right6(Right6(Right6(v)))))) == 0
  {
  }

  lemma Left2Eight(v: Word)
    ensures Left2(Left2(Left2(Left2(Left2(Left2(Left2(Left2(v)))))))) == Left16(v)
  {
  }

  lemma Left16Out(v: Word)
    ensures Left16(Left16(v)) == 0
  {
  }

  lemma Right16Out(v: Word)
    ensures Right16(Right16(v)) == 0
  {
  }

  lemma ZeroShifted(i: nat)
    ensures Shifted(0, i) == 0
  {
  }

  lemma {:induction false} ZeroRepeated(i: nat, n: nat)
    ensures Repeated(0, i, n) == 0
  {
    hide Shifted;
    if n > 0 { ZeroRepeated(i, n - 1); ZeroShifted(i); }
  }

  /** Sixteen shifts leave nothing. */
  lemma NothingLeft(v: Word, i: nat)
    ensures Repeated(v, i, 16) == 0
  {
    var k := if i % 4 == 0 then 3 else if i % 4 == 1 then 6 else if i % 4 == 2 then 16 else 2;
    RepeatedSum(v, i, k, 16 - k);
    assert Repeated(v, i, k) == 0 by { FewLeft(v, i); }
    ZeroRepeated(i, 16 - k);
  }

  lemma FewLeft(v: Word, i: nat)
    ensures i % 4 == 0 ==> Repeated(v, i, 3) == 0
    ensures i % 4 == 1 ==> Repeated(v, i, 6) == 0
    ensures i % 4 == 2 ==> Repeated(v, i, 16) == 0
    ensures i % 4 == 3 ==> Repeated(v, i, 2) == 0
  {
    hide Left13, Right6, Left2, Left16, Right16, Repeated;
    UpToEight(v, i);
    Left13Out(v);
    Right6Out(v);
    Right16Out(v);
    if i % 4 == 2 {
      RepeatedSum(v, i, 8, 8);
      Left2Eight(v);
      UpToEight(Left16(v), i);
      Left2Eight(Left16(v));
      Left16Out(v);
    }
  }

  lemma UpToEight(v: Word, i: nat)
    ensures Repeated(v, i, 2) == Shifted(Shifted(v, i), i)
    ensures Repeated(v, i, 3) == Shifted(Shifted(Shifted(v, i), i), i)
    ensures Repeated(v, i, 6) == Shifted(Shifted(Shifted(Shifted(Shifted(Shifted(v, i), i), i), i), i), i)
    ensures Repeated(v, i, 8) == Shifted(Shifted(Repeated(v, i, 6), i), i)
  {
    hide Shifted;
    assert Repeated(v, i, 1) == Shifted(v, i) by { assert Repeated(v, i, 0) == v; }
    assert Repeated(v, i, 2) == Shifted(Repeated(v, i, 1), i);
    assert Repeated(v, i, 3) == Shifted(Repeated(v, i, 2), i);
    assert Repeated(v, i, 4) == Shifted(Repeated(v, i, 3), i);
    assert Repeated(v, i, 5) == Shifted(Repeated(v, i, 4), i);
    assert Repeated(v, i, 6) == Shifted(Repeated(v, i, 5), i);
    assert Repeated(v, i, 7) == Shifted(Repeated(v, i, 6), i);
    assert Repeated(v, i, 8) == Shifted(Repeated(v, i, 7), i);
  }

  lemma {:induction false} HornerStep(v: Word, i: nat, n: nat)
    ensures Horner(v, i, n + 1) == Xor(Horner(v, i, n), Repeated(v, i, n + 1))
  {
    hide Shifted, Xor;
    if n > 0 {
      HornerStep(v, i, n - 1);
      ShiftXor(Horner(v, i, n - 1), Repeated(v, i, n), i);
      XorMoves(v, Shifted(Horner(v, i, n - 1), i), Repeated(v, i, n + 1));
    }
  }

  lemma {:induction false} HornerBack(u: Word, i: nat, n: nat)
    ensures Horner(Xor(u, Shifted(u, i)), i, n) == Xor(u, Repeated(u, i, n + 1))
  {
    hide Shifted, Xor;
    var v := Xor(u, Shifted(u, i));
    if n > 0 {
      HornerBack(u, i, n - 1);
      ShiftXor(u, Repeated(u, i, n), i);
      XorJoins(u, Shifted(u, i), Repeated(u, i, n + 1));
    } else {
      assert Repeated(u, i, 1) == Shifted(Repeated(u, i, 0), i);
    }
  }

  lemma ShiftInverse(v: Word, i: nat)
    ensures Xor(Unshifted(v, i), Shifted(Unshifted(v, i), i)) == v
    ensures Unshifted(Xor(v, Shifted(v, i)), i) == v
  {
    hide Shifted, Xor, Repeated;
    var u := Unshifted(v, i);
    HornerStep(v, i, 15);
    NothingLeft(v, i);
    XorZero(u);
    assert u == Xor(v, Shifted(u, i));
    XorCancels(v, Shifted(u, i));
    HornerBack(v, i, 15);
    XorZero(v);
  }

  function BackStep(s: State, i: nat): State
    requires i < 256
  {
    var y := s.mem[i];
    var x := Difference(s.b, s.mem[HighSlot(y)]);
    var mem: Memory := s.mem[i := x];
    State(mem, Unshifted(Difference(s.a, s.mem[(i + 128) % 256]), i), Difference(y, Sum(mem[Slot(x)], s.a)), s.c)
  }

  function BackSteps(s: State, n: nat): State
    requires n <= 256
    decreases n
  {
    if n == 0 then s else BackSteps(BackStep(s, n - 1), n - 1)
  }

  function BackRound(s: State): State {
    var t := BackSteps(s, 256);
    t.(b := Difference(t.b, t.c), c := Difference(t.c, 1))
  }

  lemma Restored(m: Memory, i: nat, v: Word)
    requires i < 256
    ensures m[i := v][i := m[i]] == m
  {
  }

  lemma SumDifference(a: Word, b: Word)
    ensures Difference(Sum(a, b), a) == b && Difference(Sum(a, b), b) == a
    ensures Sum(a, Difference(b, a)) == b && Sum(Difference(b, a), a) == b
  {
  }

  lemma BackStepUndoes(s: State, i: nat)
    requires i < 256
    ensures BackStep(Step(s, i), i) == s
  {
    hide Slot, HighSlot, Shifted, Unshifted, Sum, Difference, Xor;
    var t := Step(s, i);
    var x, y := s.mem[i], t.mem[i];
    SumDifference(t.mem[HighSlot(y)], x);
    SumDifference(s.mem[(i + 128) % 256], Xor(s.a, Shifted(s.a, i)));
    SumDifference(Sum(s.mem[Slot(x)], t.a), s.b);
    Restored(s.mem, i, y);
    ShiftInverse(s.a, i);
  }

  lemma StepUndoes(s: State, i: nat)
    requires i < 256
    ensures Step(BackStep(s, i), i) == s
  {
    hide Slot, HighSlot, Shifted, Unshifted, Sum, Difference, Xor;
    var t := BackStep(s, i);
    var x, y := t.mem[i], s.mem[i];
    SumDifference(s.mem[HighSlot(y)], s.b);
    SumDifference(s.mem[(i + 128) % 256], s.a);
    SumDifference(Sum(t.mem[Slot(x)], s.a), y);
    Restored(s.mem, i, x);
    ShiftInverse(Difference(s.a, s.mem[(i + 128) % 256]), i);
  }

  lemma {:induction false} BackStepsUndo(s: State, n: nat)
    requires n <= 256
    ensures BackSteps(Steps(s, n), n) == s
  {
    hide BackStep, Step;
    if n > 0 {
      BackStepUndoes(Steps(s, n - 1), n - 1);
      BackStepsUndo(s, n - 1);
    }
  }

  lemma {:induction false} StepsUndo(s: State, n: nat)
    requires n <= 256
    ensures Steps(BackSteps(s, n), n) == s
    decreases n
  {
    hide BackStep, Step;
    if n > 0 {
      StepsUndo(BackStep(s, n - 1), n - 1);
      StepUndoes(s, n - 1);
    }
  }

  /** A round is a bijection on states, with `BackRound` as its inverse. */
  lemma RoundBijective(s: State)
    ensures BackRound(Round(s)) == s
    ensures Round(BackRound(s)) == s
  {
    hide Steps, BackSteps, Sum, Difference;
    BackStepsUndo(Begun(s), 256);
    SumDifference(s.b, Sum(s.c, 1));
    SumDifference(s.c, 1);
    StepsUndo(s, 256);
    var t := BackSteps(s, 256);
    SumDifference(t.c, t.b);
    SumDifference(1, t.c);
  }

  /** No two states ever merge. */
  lemma RoundInjective(s: State, t: State)
    requires Round(s) == Round(t)
    ensures s == t
  {
    hide Round, BackRound;
    RoundBijective(s);
    RoundBijective(t);
  }
}
