/** src/isaac/readable.c: the generator as one loop over the memory, the file's
    global variables being the fields of a class. */
module IsaacReadable {
  import opened Isaac
  import opened IsaacSeed

  class Generator {
    const randrsl: array<Word>
    const mm: array<Word>
    var randcnt: nat
    var aa: Word
    var bb: Word
    var cc: Word

    ghost predicate Valid()
      reads this
    {
      mm != randrsl && mm.Length == 256 && randrsl.Length == 256
    }

    ghost function Current(): State
      requires Valid()
      reads this, mm
    {
      State(mm[..], aa, bb, cc)
    }

    /** The results, which are the seed before seeding. */
    ghost function Batch(): Memory
      requires Valid()
      reads this, randrsl
    {
      randrsl[..]
    }

    constructor ()
      ensures Valid() && fresh(mm) && fresh(randrsl)
    {
      randrsl, mm := new Word[256](_ => 0), new Word[256](_ => 0);
      randcnt, aa, bb, cc := 0, 0, 0, 0;
    }

    /** The switch on the position. */
    method Scramble(i: nat)
      modifies `aa
      ensures aa == Xor(old(aa), Shifted(old(aa), i))
    {
      hide Sum, Xor, Left13, Right6, Left2, Right16;
      if i % 4 == 0 {
        aa := Xor(aa, Left13(aa));
      } else if i % 4 == 1 {
        aa := Xor(aa, Right6(aa));
      } else if i % 4 == 2 {
        aa := Xor(aa, Left2(aa));
      } else {
        aa := Xor(aa, Right16(aa));
      }
    }

    /** One pass of the loop. */
    method OneStep(i: nat)
      requires Valid() && i < 256
      modifies `aa, `bb, mm, randrsl
      ensures Valid() && Current() == Step(old(Current()), i)
      ensures forall k :: 0 <= k < 256 ==> randrsl[k] == if k == i then bb else old(randrsl[k])
    {
      hide Slot, HighSlot, Sum, Xor, Shifted;
      ghost var s := Current();
      var x := mm[i];
      Scramble(i);
      aa := Sum(mm[(i + 128) % 256], aa);
      assert aa == Step(s, i).a;
      var y := Sum(Sum(mm[Slot(x)], aa), bb);
      mm[i] := y;
      assert mm[..] == s.mem[i := y];
      bb := Sum(mm[HighSlot(y)], x);
      randrsl[i] := bb;
      assert mm[..] == s.mem[i := y];
    }

    method Isaac()
      requires Valid()
      modifies this, mm, randrsl
      ensures Valid() && Current() == Round(old(Current())) && randcnt == old(randcnt)
      ensures Batch() == Results(old(Current()))
    {
      hide Step, Sum;
      cc := Sum(cc, 1);
      bb := Sum(bb, cc);
      ghost var s := Begun(old(Current()));
      for i := 0 to 256
        invariant Valid() && Current() == Steps(s, i) && randcnt == old(randcnt)
        invariant forall j :: 0 <= j < i ==> randrsl[j] == Steps(s, j + 1).b
      {
        OneStep(i);
      }
    }

    /** The first loop: fill the memory with messy stuff. */
    method Fill(v: Eight, flag: bool) returns (w: Eight)
      requires Valid()
      modifies mm
      ensures Valid() && mm[..] == FirstPass(v, flag, Batch())
      ensures w == PassEnd(v, if flag then randrsl[..] else Zeros(), 32)
    {
      hide Mix, Plus, Words, Zeros;
      ghost var src: Memory := if flag then randrsl[..] else Zeros();
      w := v;
      var i := 0;
      while i < 256
        invariant i % 8 == 0 && i <= 256
        invariant w == PassEnd(v, src, i / 8) && mm[..i] == PassWords(v, src, i / 8)
      {
        ghost var was := mm[..i];
        if flag {
          w := Plus(w, randrsl[..], i);
        } else {
          PlusZeros(w, i);
        }
        w := MixMacro(w);
        Store(mm, i, w);
        i := i + 8;
        assert mm[..i] == was + Words(w);
      }
    }

    method RandInit(flag: bool)
      requires Valid()
      modifies this, mm, randrsl
      ensures Valid() && randcnt == 256
      ensures Current() == Round(Ready(flag, old(Batch())))
      ensures Batch() == Results(Ready(flag, old(Batch())))
    {
      hide Start, PassEnd, PassWords, Zeros, Round, Results;
      aa, bb, cc := 0, 0, 0;
      var v := ScrambleWords();
      v := Fill(v, flag);
      if flag {
        Spread(v, mm);
      }
      assert Current() == Ready(flag, old(Batch()));
      Isaac();
      randcnt := 256;
    }
  }
}
