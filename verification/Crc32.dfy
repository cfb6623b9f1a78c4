/** The bitwise CRC-32 of fwupdate/fwserialrx.c (the reflected polynomial of
    section 8 of RFC 1952), and what it detects. */
module Crc32 {
  import opened Bytes

  // --------------------------------------------------------------- reference

  /** One bit shifted out of the register. */
  function Step(crc: bv32): bv32 {
    if crc & 1 == 1 then (crc >> 1) ^ 0xedb88320 else crc >> 1
  }

  function StepTimes(crc: bv32, n: nat): bv32 {
    if n == 0 then crc else Step(StepTimes(crc, n - 1))
  }

  /** One byte, already folded into the register. */
  function Step8(crc: bv32): bv32 {
    StepTimes(crc, 8)
  }

  function Mix(a: bv32, b: bv32): bv32 {
    a ^ b
  }

  function Fold(crc: bv32, value: bv8): bv32 {
    crc ^ value as bv32
  }

  /** The register after a message. */
  function Run(crc: bv32, data: seq<bv8>): bv32
    decreases |data|
  {
    if |data| == 0 then crc else Run(Step8(Fold(crc, data[0])), data[1..])
  }

  function Checksum(data: seq<bv8>): bv32 {
    Mix(Run(0xffffffff, data), 0xffffffff)
  }

  /** crc32_bytes: the mask form of the step, eight times for every byte. */
  method Crc32Bytes(data: seq<bv8>) returns (crc: bv32)
    ensures crc == Checksum(data)
  {
    crc := 0xffffffff;
    var i := 0;
    while i < |data|
      invariant 0 <= i <= |data|
      invariant Run(crc, data[i..]) == Run(0xffffffff, data)
    {
      crc := crc ^ data[i] as bv32;
      ghost var loaded := crc;
      for bit := 0 to 8
        invariant StepTimes(loaded, bit) == crc
      {
        MaskedStep(crc);
        crc := (crc >> 1) ^ (0xedb88320 & (0 - (crc & 1)));
      }
      assert data[i..][1..] == data[i + 1..];
      i := i + 1;
    }
    assert data[i..] == [];
    crc := crc ^ 0xffffffff;
  }

  lemma MaskedStep(crc: bv32)
    ensures (crc >> 1) ^ (0xedb88320 & (0 - (crc & 1))) == Step(crc)
  {
    assert crc & 1 == 0 || crc & 1 == 1;
  }

  // ------------------------------------------------- bijection and linearity

  function StepBack(crc: bv32): bv32 {
    if crc & 0x8000_0000 != 0 then ((crc ^ 0xedb88320) << 1) | 1 else crc << 1
  }

  /** The step is a bijection of the 32-bit states: `StepBack` inverts it on
      both sides. */
  lemma StepBijective(crc: bv32)
    ensures StepBack(Step(crc)) == crc
    ensures Step(StepBack(crc)) == crc
  {
    StepBackUndoes(crc);
    StepUndoes(crc);
  }

  lemma StepBackUndoes(crc: bv32)
    ensures StepBack(Step(crc)) == crc
  {
    EvenBit(crc);
    if crc & 1 == 1 {
      OddUndone(crc);
    } else {
      EvenUndone(crc);
    }
  }

  lemma OddUndone(crc: bv32)
    requires crc & 1 == 1
    ensures StepBack(Step(crc)) == crc
  {
    StepOfOdd(crc);
    OddShift(crc);
    StepBackOfHigh((crc >> 1) ^ 0xedb88320);
    hide Step, StepBack;
  }

  lemma EvenUndone(crc: bv32)
    requires crc & 1 == 0
    ensures StepBack(Step(crc)) == crc
  {
    StepOfEven(crc);
    EvenShift(crc);
    StepBackOfLow(crc >> 1);
    hide Step, StepBack;
  }

  lemma StepBackOfHigh(crc: bv32)
    requires crc & 0x8000_0000 != 0
    ensures StepBack(crc) == ((crc ^ 0xedb88320) << 1) | 1
  {
  }

  lemma StepBackOfLow(crc: bv32)
    requires crc & 0x8000_0000 == 0
    ensures StepBack(crc) == crc << 1
  {
  }

  lemma OddShift(crc: bv32)
    requires crc & 1 == 1
    ensures ((crc >> 1) ^ 0xedb88320) & 0x8000_0000 != 0
    ensures ((((crc >> 1) ^ 0xedb88320) ^ 0xedb88320) << 1) | 1 == crc
  {
  }

  lemma EvenShift(crc: bv32)
    requires crc & 1 == 0
    ensures (crc >> 1) & 0x8000_0000 == 0
    ensures (crc >> 1) << 1 == crc
  {
  }

  lemma StepOfOdd(crc: bv32)
    requires crc & 1 == 1
    ensures Step(crc) == (crc >> 1) ^ 0xedb88320
  {
  }

  lemma StepOfEven(crc: bv32)
    requires crc & 1 == 0
    ensures Step(crc) == crc >> 1
  {
  }

  lemma StepUndoes(crc: bv32)
    ensures Step(StepBack(crc)) == crc
  {
    if crc & 0x8000_0000 != 0 {
      HighShift(crc);
      StepOfOdd(((crc ^ 0xedb88320) << 1) | 1);
    } else {
      LowShift(crc);
      StepOfEven(crc << 1);
    }
  }

  lemma HighShift(crc: bv32)
    requires crc & 0x8000_0000 != 0
    ensures (((crc ^ 0xedb88320) << 1) | 1) & 1 == 1
    ensures ((((crc ^ 0xedb88320) << 1) | 1) >> 1) ^ 0xedb88320 == crc
  {
  }

  lemma LowShift(crc: bv32)
    requires crc & 0x8000_0000 == 0
    ensures (crc << 1) & 1 == 0
    ensures (crc << 1) >> 1 == crc
  {
  }

  lemma EvenBit(crc: bv32)
    ensures crc & 1 == 0 || crc & 1 == 1
  {
  }

  /** The step respects exclusive or. */
  lemma StepLinear(a: bv32, b: bv32)
    ensures Step(Mix(a, b)) == Mix(Step(a), Step(b))
  {
    EvenBit(a);
    EvenBit(b);
    assert (a ^ b) & 1 == (a & 1) ^ (b & 1);
    assert (a ^ b) >> 1 == (a >> 1) ^ (b >> 1);
    XorShuffle(a >> 1, b >> 1, 0xedb88320);
  }

  lemma XorShuffle(a: bv32, b: bv32, p: bv32)
    ensures (a ^ p) ^ b == (a ^ b) ^ p
    ensures a ^ (b ^ p) == (a ^ b) ^ p
    ensures (a ^ p) ^ (b ^ p) == a ^ b
  {
  }

  lemma {:induction false} StepTimesLinear(a: bv32, b: bv32, n: nat)
    ensures StepTimes(Mix(a, b), n) == Mix(StepTimes(a, n), StepTimes(b, n))
  {
    hide Step, Mix;
    if n > 0 {
      StepTimesLinear(a, b, n - 1);
      StepLinear(StepTimes(a, n - 1), StepTimes(b, n - 1));
    }
  }

  lemma {:induction false} StepTimesInjective(a: bv32, b: bv32, n: nat)
    requires StepTimes(a, n) == StepTimes(b, n)
    ensures a == b
  {
    hide Step, StepBack;
    if n > 0 {
      StepBijective(StepTimes(a, n - 1));
      StepBijective(StepTimes(b, n - 1));
      StepTimesInjective(a, b, n - 1);
    }
  }

  function Mix8(x: bv8, y: bv8): bv8 { x ^ y }

  /** The difference of two equally long messages. */
  function Xor(a: seq<bv8>, b: seq<bv8>): (d: seq<bv8>)
    requires |a| == |b|
    ensures |d| == |a|
  {
    if |a| == 0 then [] else [Mix8(a[0], b[0])] + Xor(a[1..], b[1..])
  }

  lemma FoldMix(c: bv32, d: bv32, x: bv8, y: bv8)
    ensures Fold(Mix(c, d), Mix8(x, y)) == Mix(Fold(c, x), Fold(d, y))
  {
  }

  /** Running over a difference gives the difference of the runs. */
  lemma {:induction false} RunLinear(c: bv32, d: bv32, a: seq<bv8>, b: seq<bv8>)
    requires |a| == |b|
    ensures Run(Mix(c, d), Xor(a, b)) == Mix(Run(c, a), Run(d, b))
    decreases |a|
  {
    hide StepTimes, Mix, Mix8, Fold;
    if |a| > 0 {
      FoldMix(c, d, a[0], b[0]);
      var u, v := Fold(c, a[0]), Fold(d, b[0]);
      StepTimesLinear(u, v, 8);
      assert Xor(a, b)[1..] == Xor(a[1..], b[1..]);
      RunLinear(Step8(u), Step8(v), a[1..], b[1..]);
    }
  }

  lemma MixZero(a: bv32, b: bv32)
    ensures Mix(a, b) == 0 <==> a == b
  {
  }

  lemma MixCancel(a: bv32, b: bv32, p: bv32)
    requires Mix(a, p) == Mix(b, p)
    ensures a == b
  {
  }

  /** A change goes unnoticed exactly when its pattern, run from zero, ends in
      zero: whether it is noticed does not depend on the message. */
  lemma UndetectedIff(a: seq<bv8>, b: seq<bv8>)
    requires |a| == |b|
    ensures Checksum(a) == Checksum(b) <==> Run(0, Xor(a, b)) == 0
  {
    hide Run, Xor, Mix;
    RunLinear(0xffffffff, 0xffffffff, a, b);
    MixZero(0xffffffff, 0xffffffff);
    MixZero(Run(0xffffffff, a), Run(0xffffffff, b));
    if Checksum(a) == Checksum(b) {
      MixCancel(Run(0xffffffff, a), Run(0xffffffff, b), 0xffffffff);
    }
  }

  /** The register after a concatenation. */
  lemma {:induction false} RunConcat(c: bv32, a: seq<bv8>, b: seq<bv8>)
    ensures Run(c, a + b) == Run(Run(c, a), b)
    decreases |a|
  {
    hide Fold, StepTimes;
    if |a| == 0 {
      assert a + b == b;
    } else {
      assert (a + b)[1..] == a[1..] + b;
      RunConcat(Step8(Fold(c, a[0])), a[1..], b);
    }
  }

  /** The register before a message is recoverable from the register after. */
  lemma {:induction false} RunInjective(c: bv32, d: bv32, a: seq<bv8>)
    requires Run(c, a) == Run(d, a)
    ensures c == d
    decreases |a|
  {
    hide StepTimes, Fold;
    if |a| > 0 {
      var u, v := Fold(c, a[0]), Fold(d, a[0]);
      RunInjective(Step8(u), Step8(v), a[1..]);
      StepTimesInjective(u, v, 8);
      FoldInjective(c, d, a[0]);
    }
  }

  lemma FoldInjective(c: bv32, d: bv32, x: bv8)
    requires Fold(c, x) == Fold(d, x)
    ensures c == d
  {
  }

  // ---------------------------------------------------------- burst detection

  function Double(crc: bv32): bv32 {
    crc << 1
  }

  lemma StepOfDouble(y: bv32)
    requires y & 0x8000_0000 == 0
    ensures Step(Double(y)) == y
  {
    LowShift(y);
    StepOfEven(y << 1);
  }

  lemma EightDoubles(y: bv32)
    requires y & 0xff00_0000 == 0
    ensures y & 0x8000_0000 == 0 && (y << 1) & 0x8000_0000 == 0
    ensures (y << 1 << 1) & 0x8000_0000 == 0 && (y << 1 << 1 << 1) & 0x8000_0000 == 0
    ensures (y << 1 << 1 << 1 << 1) & 0x8000_0000 == 0 && (y << 1 << 1 << 1 << 1 << 1) & 0x8000_0000 == 0
    ensures (y << 1 << 1 << 1 << 1 << 1 << 1) & 0x8000_0000 == 0
    ensures (y << 1 << 1 << 1 << 1 << 1 << 1 << 1) & 0x8000_0000 == 0
    ensures y << 1 << 1 << 1 << 1 << 1 << 1 << 1 << 1 == y << 8
  {
  }

  /** Eight steps of a register whose low byte is clear only shift it. */
  lemma Step8OfHigh(y: bv32)
    requires y & 0xff00_0000 == 0
    ensures Step8(y << 8) == y
  {
    hide Step, Step8;
    var y1 := Double(y);
    var y2 := Double(y1);
    var y3 := Double(y2);
    var y4 := Double(y3);
    var y5 := Double(y4);
    var y6 := Double(y5);
    var y7 := Double(y6);
    var y8 := Double(y7);
    EightDoubles(y);
    hide Double;
    StepOfDouble(y7);
    StepOfDouble(y6);
    StepOfDouble(y5);
    StepOfDouble(y4);
    StepOfDouble(y3);
    StepOfDouble(y2);
    StepOfDouble(y1);
    StepOfDouble(y);
    Unroll8(y8);
  }

  lemma Unroll8(c: bv32)
    ensures Step8(c) == Step(Step(Step(Step(Step(Step(Step(Step(c))))))))
  {
    hide Step;
    assert StepTimes(c, 1) == Step(StepTimes(c, 0));
    assert StepTimes(c, 2) == Step(StepTimes(c, 1));
    assert StepTimes(c, 3) == Step(StepTimes(c, 2));
    assert StepTimes(c, 4) == Step(StepTimes(c, 3));
    assert StepTimes(c, 5) == Step(StepTimes(c, 4));
    assert StepTimes(c, 6) == Step(StepTimes(c, 5));
    assert StepTimes(c, 7) == Step(StepTimes(c, 6));
  }

  /** The register before the last byte of a run that ends in `y`. */
  lemma BackOneByte(c: bv32, x: bv8, y: bv32)
    requires Step8(Fold(c, x)) == y && y & 0xff00_0000 == 0
    ensures Fold(c, x) == y << 8
  {
    hide StepTimes, Fold;
    Step8OfHigh(y);
    StepTimesInjective(Fold(c, x), y << 8, 8);
  }

  /** Four bytes unrolled. */
  lemma RunFour(c: bv32, w: seq<bv8>)
    requires |w| == 4
    ensures Run(c, w) == Step8(Fold(Step8(Fold(Step8(Fold(Step8(Fold(c, w[0])), w[1])), w[2])), w[3]))
  {
    hide Step8, Fold;
    var s1 := Step8(Fold(c, w[0]));
    var s2 := Step8(Fold(s1, w[1]));
    var s3 := Step8(Fold(s2, w[2]));
    assert Run(c, w) == Run(s1, w[1..]);
    assert Run(s1, w[1..]) == Run(s2, w[2..]) by { assert w[1..][1..] == w[2..]; }
    assert Run(s2, w[2..]) == Run(s3, w[3..]) by { assert w[2..][1..] == w[3..]; }
    assert Run(s3, w[3..]) == Run(Step8(Fold(s3, w[3])), w[4..]) by { assert w[3..][1..] == w[4..]; }
  }

  /** Only the zero pattern of four bytes runs from zero to zero. */
  lemma ShortPatternDetected(w: seq<bv8>)
    requires |w| == 4 && Run(0, w) == 0
    ensures w == [0, 0, 0, 0]
  {
    hide Step8, Fold, Run;
    var s1 := Step8(Fold(0, w[0]));
    var s2 := Step8(Fold(s1, w[1]));
    var s3 := Step8(Fold(s2, w[2]));
    RunFour(0, w);
    BackOneByte(s3, w[3], 0);
    FoldTop1(s3, w[3], 0);
    BackOneByte(s2, w[2], s3);
    FoldTop2(s2, w[2], s3);
    BackOneByte(s1, w[1], s2);
    FoldTop3(s1, w[1], s2);
    BackOneByte(0, w[0], s1);
    FoldZero(w[0], s1);
    FoldZero(w[1], s2);
    FoldZero(w[2], s3);
    FoldZero(w[3], 0);
  }

  /** One byte back, the register is at most one byte wider. */
  lemma FoldTop1(c: bv32, x: bv8, y: bv32)
    requires Fold(c, x) == y << 8 && y == 0
    ensures c & 0xffff_ff00 == 0
    ensures c & 0xff00_0000 == 0
  {
  }

  lemma FoldTop2(c: bv32, x: bv8, y: bv32)
    requires Fold(c, x) == y << 8 && y & 0xffff_ff00 == 0
    ensures c & 0xffff_0000 == 0
    ensures c & 0xff00_0000 == 0
  {
  }

  lemma FoldTop3(c: bv32, x: bv8, y: bv32)
    requires Fold(c, x) == y << 8 && y & 0xffff_0000 == 0
    ensures c & 0xff00_0000 == 0
  {
  }

  lemma FoldZero(x: bv8, y: bv32)
    requires Fold(0, x) == y << 8 && y & 0xff00_0000 == 0
    ensures x == 0 && y == 0
  {
  }

  lemma LeadingZero(w: seq<bv8>)
    ensures Run(0, [0] + w) == Run(0, w)
  {
    assert ([0] + w)[1..] == w;
    Unroll8(0);
    assert Fold(0, 0) == 0;
  }

  /** A nonzero pattern of at most four bytes never runs from zero to zero. */
  lemma {:induction false} PatternDetected(w: seq<bv8>)
    requires |w| <= 4 && Run(0, w) == 0
    ensures forall k :: 0 <= k < |w| ==> w[k] == 0
    decreases 4 - |w|
  {
    if |w| == 4 {
      ShortPatternDetected(w);
    } else {
      LeadingZero(w);
      var padded := [0] + w;
      PatternDetected(padded);
      forall k | 0 <= k < |w| ensures w[k] == 0 {
        assert w[k] == padded[k + 1];
      }
    }
  }

  lemma {:induction false} XorZero(a: seq<bv8>, b: seq<bv8>)
    requires |a| == |b|
    requires forall k :: 0 <= k < |a| ==> Xor(a, b)[k] == 0
    ensures a == b
    decreases |a|
  {
    hide Mix8;
    if |a| > 0 {
      var d := Xor(a, b);
      assert d[0] == Mix8(a[0], b[0]);
      XorZero8(a[0], b[0]);
      assert d[1..] == Xor(a[1..], b[1..]);
      forall k | 0 <= k < |a| - 1 ensures Xor(a[1..], b[1..])[k] == 0 {
        assert d[k + 1] == d[1..][k];
      }
      XorZero(a[1..], b[1..]);
      assert a == [a[0]] + a[1..] && b == [b[0]] + b[1..];
    }
  }

  lemma XorZero8(x: bv8, y: bv8)
    requires Mix8(x, y) == 0
    ensures x == y
  {
  }

  /** Two different messages of one length that agree outside some four
      consecutive bytes have different checksums. */
  lemma BurstDetected(before: seq<bv8>, x: seq<bv8>, y: seq<bv8>, after: seq<bv8>)
    requires |x| == |y| <= 4 && x != y
    ensures Checksum(before + x + after) != Checksum(before + y + after)
  {
    var c := Run(0xffffffff, before);
    RunConcat(0xffffffff, before + x, after);
    RunConcat(0xffffffff, before + y, after);
    RunConcat(0xffffffff, before, x);
    RunConcat(0xffffffff, before, y);
    hide Run, Mix, Xor;
    if Checksum(before + x + after) == Checksum(before + y + after) {
      MixCancel(Run(0xffffffff, before + x + after), Run(0xffffffff, before + y + after), 0xffffffff);
      RunInjective(Run(c, x), Run(c, y), after);
      RunLinear(c, c, x, y);
      MixZero(c, c);
      MixZero(Run(c, x), Run(c, y));
      PatternDetected(Xor(x, y));
      XorZero(x, y);
      assert false;
    }
  }

  // ------------------------------------------------------------- residue

  function LowByte(c: bv32): bv8 { (c & 0xff) as bv8 }

  function Shifted(c: bv32): bv32 { c >> 8 }

  /** The bytes of a register, lowest first. */
  function LittleEndian(c: bv32): seq<bv8> {
    [LowByte(c), LowByte(Shifted(c)), LowByte(Shifted(Shifted(c))), LowByte(Shifted(Shifted(Shifted(c))))]
  }

  lemma LowByteBack(d: bv32)
    ensures ((d & 0xff) as bv8) as bv32 == d & 0xff
  {
  }

  lemma FoldLow(c: bv32, d: bv32)
    ensures Fold(c, LowByte(d)) == c ^ (d & 0xff)
  {
    LowByteBack(d);
    FoldValue(c, LowByte(d), d & 0xff);
  }

  lemma FoldValue(c: bv32, b: bv8, wide: bv32)
    requires b as bv32 == wide
    ensures Fold(c, b) == c ^ wide
  {
  }

  lemma ShiftedHigh(d: bv32)
    ensures Shifted(d) << 8 == (d >> 8) << 8 && Shifted(d) & 0xff00_0000 == 0
  {
  }

  lemma LowAndRest(c: bv32, d: bv32, e: bv32)
    requires e == c ^ (d & 0xff)
    ensures c ^ d == e ^ ((d >> 8) << 8)
  {
  }

  lemma TakenOff(c: bv32, d: bv32)
    ensures Mix(c, d) == Mix(Fold(c, LowByte(d)), Shifted(d) << 8)
    ensures Shifted(d) & 0xff00_0000 == 0
  {
    hide Fold, LowByte, Shifted;
    FoldLow(c, d);
    ShiftedHigh(d);
    LowAndRest(c, d, Fold(c, LowByte(d)));
  }

  /** One byte of `d` taken off by the register. */
  lemma OneByte(c: bv32, d: bv32)
    ensures Mix(Step8(Fold(c, LowByte(d))), Shifted(d)) == Step8(Mix(c, d))
  {
    TakenOff(c, d);
    hide StepTimes, Fold, Mix, LowByte, Shifted;
    StepTimesLinear(Fold(c, LowByte(d)), Shifted(d) << 8, 8);
    Step8OfHigh(Shifted(d));
  }

  lemma ShiftedOut(d: bv32)
    ensures Shifted(Shifted(Shifted(Shifted(d)))) == 0
  {
  }

  lemma MixNothing(c: bv32)
    ensures Mix(c, 0) == c
  {
  }

  /** Appending a register's bytes is the same as adding it and shifting it out. */
  lemma RegisterShiftedOut(c: bv32, d: bv32)
    ensures Run(c, LittleEndian(d)) == Step8(Step8(Step8(Step8(Mix(c, d)))))
  {
    hide Step8, Fold, Run, Mix, LowByte, Shifted;
    var c1 := Step8(Fold(c, LowByte(d)));
    var d1 := Shifted(d);
    var c2 := Step8(Fold(c1, LowByte(d1)));
    var d2 := Shifted(d1);
    var c3 := Step8(Fold(c2, LowByte(d2)));
    var d3 := Shifted(d2);
    RunFour(c, LittleEndian(d));
    OneByte(c, d);
    OneByte(c1, d1);
    OneByte(c2, d2);
    OneByte(c3, d3);
    ShiftedOut(d);
    MixNothing(Step8(Fold(c3, LowByte(d3))));
  }

  lemma AllOnes(c: bv32)
    ensures Mix(c, Mix(c, 0xffffffff)) == 0xffffffff
  {
  }

  lemma OnesShiftedOut1()
    ensures Step8(0xffffffff) == 0x2dfd1072
  {
    Unroll8(0xffffffff);
  }

  lemma OnesShiftedOut2()
    ensures Step8(0x2dfd1072) == 0xbe26ed00
  {
    Unroll8(0x2dfd1072);
  }

  lemma OnesShiftedOut3()
    ensures Step8(0xbe26ed00) == 0xbe26ed
  {
    Unroll8(0xbe26ed00);
  }

  lemma OnesShiftedOut4()
    ensures Step8(0xbe26ed) == 0xdebb20e3
  {
    Unroll8(0xbe26ed);
  }

  /** The constants of the standard: the checksum of nothing is 0, and a message
      followed by its checksum, lowest byte first, always has the checksum 2144df1c. */
  lemma Residue(message: seq<bv8>)
    ensures Checksum([]) == 0
    ensures Checksum(message + LittleEndian(Checksum(message))) == 0x2144df1c
  {
    NoMessage();
    OnesShiftedOut1();
    OnesShiftedOut2();
    OnesShiftedOut3();
    OnesShiftedOut4();
    Complement();
    hide Step8, Run, Mix, LittleEndian;
    var c := Run(0xffffffff, message);
    RunConcat(0xffffffff, message, LittleEndian(Checksum(message)));
    RegisterShiftedOut(c, Checksum(message));
    AllOnes(c);
  }

  lemma NoMessage()
    ensures Checksum([]) == 0
  {
  }

  lemma Complement()
    ensures Mix(0xdebb20e3, 0xffffffff) == 0x2144df1c
  {
  }

  // ------------------------------------------------------------ byte values

  function Octet(x: int): bv8
    requires 0 <= x < 256
  {
    x as bv8
  }

  function OctetValue(b: bv8): (x: int)
    ensures 0 <= x < 256
  {
    b as int
  }

  lemma ConvertedBack(x: int, high: int, low: int)
    requires 0 <= high < 16 && 0 <= low < 16 && x == 16 * high + low
    ensures (x as bv8) as int == x
  {
  }

  lemma OctetBack(x: int)
    requires 0 <= x < 256
    ensures OctetValue(Octet(x)) == x
  {
    ConvertedBack(x, x / 16, x % 16);
  }

  /** A register as an unsigned number, from its bytes. */
  function Number(c: bv32): (v: nat)
    ensures v < 0x1_0000_0000
  {
    OctetValue(LowByte(c)) + 256 * OctetValue(LowByte(Shifted(c))) + 65536 * OctetValue(LowByte(Shifted(Shifted(c))))
    + 16777216 * OctetValue(LowByte(Shifted(Shifted(Shifted(c)))))
  }

  lemma FourDigits(a: int, b: int, c: int, d: int, w: int, x: int, y: int, z: int)
    requires 0 <= a < 256 && 0 <= b < 256 && 0 <= c < 256 && 0 <= w < 256 && 0 <= x < 256 && 0 <= y < 256
    requires a + 256 * b + 65536 * c + 16777216 * d == w + 256 * x + 65536 * y + 16777216 * z
    ensures a == w && b == x && c == y && d == z
  {
    LowDigit(a, b + 256 * c + 65536 * d, w, x + 256 * y + 65536 * z);
    LowDigit(b, c + 256 * d, x, y + 256 * z);
    LowDigit(c, d, y, z);
  }

  lemma LowDigit(low: int, rest: int, digit: int, others: int)
    requires 0 <= low < 256 && 0 <= digit < 256 && low + 256 * rest == digit + 256 * others
    ensures low == digit && rest == others
  {
  }

  lemma OctetOnce(a: bv8, b: bv8)
    requires OctetValue(a) == OctetValue(b)
    ensures a == b
  {
    assert (a as int) as bv8 == a && (b as int) as bv8 == b;
  }

  lemma BytesOnce(a: bv32, b: bv32)
    requires LowByte(a) == LowByte(b) && LowByte(Shifted(a)) == LowByte(Shifted(b))
    requires LowByte(Shifted(Shifted(a))) == LowByte(Shifted(Shifted(b)))
    requires LowByte(Shifted(Shifted(Shifted(a)))) == LowByte(Shifted(Shifted(Shifted(b))))
    ensures a == b
  {
  }

  /** Different registers are different numbers. */
  lemma NumberOnce(a: bv32, b: bv32)
    requires Number(a) == Number(b)
    ensures a == b
  {
    hide LowByte, Shifted, OctetValue;
    var a1, b1 := Shifted(a), Shifted(b);
    var a2, b2 := Shifted(a1), Shifted(b1);
    var a3, b3 := Shifted(a2), Shifted(b2);
    FourDigits(OctetValue(LowByte(a)), OctetValue(LowByte(a1)), OctetValue(LowByte(a2)), OctetValue(LowByte(a3)),
               OctetValue(LowByte(b)), OctetValue(LowByte(b1)), OctetValue(LowByte(b2)), OctetValue(LowByte(b3)));
    OctetOnce(LowByte(a), LowByte(b));
    OctetOnce(LowByte(a1), LowByte(b1));
    OctetOnce(LowByte(a2), LowByte(b2));
    OctetOnce(LowByte(a3), LowByte(b3));
    BytesOnce(a, b);
  }

  function Octets(data: seq<byte>): (s: seq<bv8>)
    ensures |s| == |data|
    ensures forall i :: 0 <= i < |data| ==> s[i] == Octet(data[i])
  {
    seq(|data|, i requires 0 <= i < |data| => Octet(data[i]))
  }

  lemma OctetsConcat(a: seq<byte>, b: seq<byte>)
    ensures Octets(a + b) == Octets(a) + Octets(b)
  {
    hide Octet;
  }

  lemma OctetsDiffer(a: seq<byte>, b: seq<byte>)
    requires |a| == |b| && a != b
    ensures Octets(a) != Octets(b)
  {
    hide Octet, OctetValue;
    if Octets(a) == Octets(b) {
      forall i | 0 <= i < |a| ensures a[i] == b[i] {
        assert Octets(a)[i] == Octets(b)[i];
        OctetBack(a[i]);
        OctetBack(b[i]);
      }
      assert false;
    }
  }

  /** The checksum of byte values as the unsigned number put into records. */
  function Value(data: seq<byte>): (v: nat)
    ensures v < 0x1_0000_0000
  {
    Number(Checksum(Octets(data)))
  }

  /** Two stretches of one length that differ, and only within four consecutive bytes. */
  ghost predicate NearMiss(a: seq<byte>, b: seq<byte>) {
    |a| == |b| && a != b && exists p: nat :: AgreeOutside(a, b, p)
  }

  predicate AgreeOutside(a: seq<byte>, b: seq<byte>, p: nat)
    requires |a| == |b|
  {
    forall i :: 0 <= i < |a| && a[i] != b[i] ==> p <= i < p + 4
  }

  lemma NearMissParts(a: seq<byte>, b: seq<byte>)
    returns (before: seq<byte>, x: seq<byte>, y: seq<byte>, after: seq<byte>)
    requires NearMiss(a, b)
    ensures a == before + x + after && b == before + y + after && |x| == |y| <= 4 && x != y
  {
    var p: nat :| AgreeOutside(a, b, p);
    var i :| 0 <= i < |a| && a[i] != b[i];
    var q := Min(p + 4, |a|);
    before, x, y, after := a[..p], a[p..q], b[p..q], a[q..];
    assert x[i - p] != y[i - p];
    forall k | 0 <= k < p || q <= k < |a| ensures a[k] == b[k] {
    }
    assert b[..p] == before && b[q..] == after;
  }

  lemma NearMissChecksum(a: seq<byte>, b: seq<byte>)
    requires NearMiss(a, b)
    ensures Checksum(Octets(a)) != Checksum(Octets(b))
  {
    hide Checksum, Octets, NearMiss;
    var before, x, y, after := NearMissParts(a, b);
    OctetsDiffer(x, y);
    OctetsConcat(before, x);
    OctetsConcat(before, y);
    OctetsConcat(before + x, after);
    OctetsConcat(before + y, after);
    BurstDetected(Octets(before), Octets(x), Octets(y), Octets(after));
  }

  lemma NearMissDetected(a: seq<byte>, b: seq<byte>)
    requires NearMiss(a, b)
    ensures Value(a) != Value(b) && |a| == |b|
  {
    hide Checksum, Octets, Number;
    NearMissChecksum(a, b);
    if Value(a) == Value(b) {
      NumberOnce(Checksum(Octets(a)), Checksum(Octets(b)));
    }
  }

  // -------------------------------------------------- a message and its checksum

  function Join(a: bv8, b: bv8, c: bv8, d: bv8): bv32 {
    a as bv32 | (b as bv32 << 8) | (c as bv32 << 16) | (d as bv32 << 24)
  }

  lemma JoinParts(a: bv8, b: bv8, c: bv8, d: bv8)
    ensures LittleEndian(Join(a, b, c, d)) == [a, b, c, d]
  {
  }

  function FourOf(a: int, b: int, c: int, d: int): int { a + 256 * b + 65536 * c + 16777216 * d }

  /** The number that four bytes spell, lowest first. */
  function Four(t: seq<byte>): int
    requires |t| == 4
  {
    FourOf(t[0], t[1], t[2], t[3])
  }

  /** The register that four bytes spell. */
  function Spelled(t: seq<byte>): bv32
    requires |t| == 4
  {
    Join(Octet(t[0]), Octet(t[1]), Octet(t[2]), Octet(t[3]))
  }

  lemma SpelledNumber(t: seq<byte>)
    requires |t| == 4
    ensures Number(Spelled(t)) == Four(t) && LittleEndian(Spelled(t)) == Octets(t)
  {
    hide Octet, OctetValue, Join, LowByte, Shifted;
    JoinParts(Octet(t[0]), Octet(t[1]), Octet(t[2]), Octet(t[3]));
    LittleEndianParts(Spelled(t));
    OctetBack(t[0]);
    OctetBack(t[1]);
    OctetBack(t[2]);
    OctetBack(t[3]);
  }

  lemma LittleEndianParts(c: bv32)
    ensures |LittleEndian(c)| == 4
    ensures Number(c) == OctetValue(LittleEndian(c)[0]) + 256 * OctetValue(LittleEndian(c)[1])
                         + 65536 * OctetValue(LittleEndian(c)[2]) + 16777216 * OctetValue(LittleEndian(c)[3])
  {
    hide OctetValue, LowByte, Shifted;
  }

  function ShiftedOutOf(c: bv32): bv32 { Step8(Step8(Step8(Step8(c)))) }

  lemma ShiftedOutOnce(a: bv32, b: bv32)
    requires ShiftedOutOf(a) == ShiftedOutOf(b)
    ensures a == b
  {
    hide StepTimes;
    StepTimesInjective(Step8(Step8(Step8(a))), Step8(Step8(Step8(b))), 8);
    StepTimesInjective(Step8(Step8(a)), Step8(Step8(b)), 8);
    StepTimesInjective(Step8(a), Step8(b), 8);
    StepTimesInjective(a, b, 8);
  }

  lemma OnesShiftedOut()
    ensures ShiftedOutOf(0xffffffff) == 0xdebb20e3
  {
    OnesShiftedOut1();
    OnesShiftedOut2();
    OnesShiftedOut3();
    OnesShiftedOut4();
    hide Step8;
  }

  lemma OnesOnly(c: bv32, d: bv32)
    ensures Mix(c, d) == 0xffffffff <==> d == Mix(c, 0xffffffff)
  {
    hide Mix;
    AllOnes(c);
    if Mix(c, d) == 0xffffffff {
      Uncover(c, d);
    }
  }

  lemma Uncover(c: bv32, d: bv32)
    requires Mix(c, d) == 0xffffffff
    ensures d == Mix(c, 0xffffffff)
  {
  }

  lemma ResidueOnly(c: bv32)
    ensures Mix(c, 0xffffffff) == 0x2144df1c <==> c == 0xdebb20e3
  {
    Complement();
    hide Mix;
    if Mix(c, 0xffffffff) == 0x2144df1c {
      MixCancel(c, 0xdebb20e3, 0xffffffff);
    }
  }

  /** Four bytes after a message are its checksum exactly when the whole has the
      residue for its checksum. */
  lemma SealedIff(message: seq<byte>, t: seq<byte>)
    requires |t| == 4
    ensures Value(message) == Four(t) <==> Checksum(Octets(message + t)) == 0x2144df1c
  {
    hide Run, Mix, Octets, Number, Spelled, LittleEndian, ShiftedOutOf, Four;
    var c, d := Run(0xffffffff, Octets(message)), Spelled(t);
    OctetsConcat(message, t);
    SpelledNumber(t);
    RunConcat(0xffffffff, Octets(message), Octets(t));
    SealedRun(c, d);
    OnesShiftedOut();
    OnesOnly(c, d);
    ResidueOnly(ShiftedOutOf(Mix(c, d)));
    if ShiftedOutOf(Mix(c, d)) == 0xdebb20e3 {
      ShiftedOutOnce(Mix(c, d), 0xffffffff);
    }
    if Number(Checksum(Octets(message))) == Number(d) {
      NumberOnce(Checksum(Octets(message)), d);
    }
  }

  lemma SealedRun(c: bv32, d: bv32)
    ensures Run(c, LittleEndian(d)) == ShiftedOutOf(Mix(c, d))
  {
    hide Run, LittleEndian, Mix, Step8;
    RegisterShiftedOut(c, d);
  }

  /** A message with its checksum is no longer one after damage within four
      consecutive bytes, in the message, in the checksum or across both. */
  lemma SealBroken(message: seq<byte>, t: seq<byte>, other: seq<byte>, u: seq<byte>)
    requires |t| == |u| == 4 && Value(message) == Four(t) && NearMiss(message + t, other + u)
    ensures Value(other) != Four(u)
  {
    hide Checksum, Octets, Number, Four, Value;
    SealedIff(message, t);
    SealedIff(other, u);
    NearMissChecksum(message + t, other + u);
  }

  /** crc32_bytes on byte values. */
  method ValueOf(data: seq<byte>) returns (v: nat)
    ensures v == Value(data)
  {
    var crc := Crc32Bytes(Octets(data));
    v := Number(crc);
  }
}
