/** The two Base64 decoders of the firmware: decode_base64 of
    fwupdate/fwserialrx.c and decode_base64 of configd's ssh_keys.c, against the
    encoding of section 4 of RFC 4648. */
module Base64 {
  import opened Bytes

  type digit = x: int | 0 <= x < 64

  // ---------------------------------------------------------------- alphabet

  /** base64_value and b64_value: the six bits of a symbol, or -1. */
  function SymbolValue(c: char): int {
    if 'A' <= c <= 'Z' then c as int - 'A' as int
    else if 'a' <= c <= 'z' then c as int - 'a' as int + 26
    else if '0' <= c <= '9' then c as int - '0' as int + 52
    else if c == '+' then 62
    else if c == '/' then 63
    else -1
  }

  function Symbol(v: digit): char {
    if v < 26 then ('A' as int + v) as char
    else if v < 52 then ('a' as int + v - 26) as char
    else if v < 62 then ('0' as int + v - 52) as char
    else if v == 62 then '+'
    else '/'
  }

  lemma SymbolRoundTrip(c: char, v: digit)
    ensures SymbolValue(Symbol(v)) == v
    ensures SymbolValue(c) == v ==> c == Symbol(v)
    ensures Symbol(v) != '=' && SymbolValue('=') == -1
  {
  }

  function Symbols(vs: seq<digit>): (s: string)
    ensures |s| == |vs|
    ensures forall k :: 0 <= k < |vs| ==> s[k] == Symbol(vs[k])
  {
    seq(|vs|, k requires 0 <= k < |vs| => Symbol(vs[k]))
  }

  // ---------------------------------------------------------------- encoding

  // The bytes inside a group of four digits, and the digits of three bytes.
  function First(v0: int, v1: int): int { v0 * 4 + v1 / 16 }
  function Second(v1: int, v2: int): int { v1 % 16 * 16 + v2 / 4 }
  function Third(v2: int, v3: int): int { v2 % 4 * 64 + v3 }

  /** The six-bit digits of a byte string, without padding. */
  function Digits(d: seq<byte>): (vs: seq<digit>)
    ensures |vs| == |d| / 3 * 4 + (if |d| % 3 == 0 then 0 else |d| % 3 + 1)
  {
    if |d| == 0 then []
    else if |d| == 1 then [d[0] / 4, d[0] % 4 * 16]
    else if |d| == 2 then [d[0] / 4, d[0] % 4 * 16 + d[1] / 16, d[1] % 16 * 4]
    else [d[0] / 4, d[0] % 4 * 16 + d[1] / 16, d[1] % 16 * 4 + d[2] / 64, d[2] % 64] + Digits(d[3..])
  }

  function Padding(n: nat): (p: string)
    ensures |p| == n && forall k :: 0 <= k < n ==> p[k] == '='
  {
    seq(n, _ => '=')
  }

  function Unpadded(d: seq<byte>): string { Symbols(Digits(d)) }

  /** The canonical padded encoding. */
  function Encode(d: seq<byte>): string {
    Unpadded(d) + Padding((3 - |d| % 3) % 3)
  }

  /** The whole bytes in a digit string, and the bits left over. */
  function Out(vs: seq<digit>): (r: seq<byte>)
    ensures |r| == 6 * |vs| / 8
  {
    if |vs| < 2 then []
    else if |vs| == 2 then [First(vs[0], vs[1])]
    else if |vs| == 3 then [First(vs[0], vs[1]), Second(vs[1], vs[2])]
    else [First(vs[0], vs[1]), Second(vs[1], vs[2]), Third(vs[2], vs[3])] + Out(vs[4..])
  }

  function Left(vs: seq<digit>): nat {
    if |vs| == 0 then 0
    else if |vs| == 1 then vs[0]
    else if |vs| == 2 then vs[1] % 16
    else if |vs| == 3 then vs[2] % 4
    else Left(vs[4..])
  }

  function Bits(n: nat): nat { 6 * n % 8 }

  /** The digits of a byte string give it back and leave nothing over. */
  lemma {:induction false} OutOfDigits(d: seq<byte>)
    ensures Out(Digits(d)) == d && Left(Digits(d)) == 0
    decreases |d|
  {
    if |d| >= 3 {
      OutOfDigits(d[3..]);
      assert Digits(d)[4..] == Digits(d[3..]);
      GroupOut(d[0], d[1], d[2]);
      assert d == [d[0], d[1], d[2]] + d[3..];
    }
  }

  lemma GroupOut(x: byte, y: byte, z: byte)
    ensures First(x / 4, x % 4 * 16 + y / 16) == x
    ensures Second(x % 4 * 16 + y / 16, y % 16 * 4 + z / 64) == y
    ensures Third(y % 16 * 4 + z / 64, z % 64) == z
  {
  }

  /** A digit string that leaves nothing over is the digits of its bytes. */
  lemma {:induction false} DigitsOfOut(vs: seq<digit>)
    requires Left(vs) == 0 && |vs| % 4 != 1
    ensures Digits(Out(vs)) == vs
    decreases |vs|
  {
    if |vs| >= 4 {
      DigitsOfOut(vs[4..]);
      DigitsOfGroup(vs);
    } else {
      DigitsOfTail(vs);
    }
  }

  lemma {:induction false} DigitsOfGroup(vs: seq<digit>)
    requires |vs| >= 4 && Digits(Out(vs[4..])) == vs[4..]
    ensures Digits(Out(vs)) == vs
  {
    hide First, Second, Third;
    var r := Out(vs);
    GroupDigits(vs[0], vs[1], vs[2], vs[3]);
    assert r[3..] == Out(vs[4..]);
    assert vs == [vs[0], vs[1], vs[2], vs[3]] + vs[4..];
  }

  lemma {:induction false} DigitsOfTail(vs: seq<digit>)
    requires |vs| < 4 && |vs| != 1 && Left(vs) == 0
    ensures Digits(Out(vs)) == vs
  {
    if |vs| == 2 {
      GroupDigits(vs[0], vs[1], 0, 0);
      assert Second(vs[1], 0) == 0;
      hide First, Second, Third;
      assert Out(vs) == [First(vs[0], vs[1])];
    } else if |vs| == 3 {
      GroupDigits(vs[0], vs[1], vs[2], 0);
      assert Third(vs[2], 0) == 0;
      hide First, Second, Third;
      assert Out(vs) == [First(vs[0], vs[1]), Second(vs[1], vs[2])];
    }
  }

  lemma GroupDigits(v0: digit, v1: digit, v2: digit, v3: digit)
    ensures 0 <= First(v0, v1) < 256 && 0 <= Second(v1, v2) < 256 && 0 <= Third(v2, v3) < 256
    ensures First(v0, v1) / 4 == v0
    ensures First(v0, v1) % 4 * 16 + Second(v1, v2) / 16 == v1
    ensures Second(v1, v2) % 16 * 4 + Third(v2, v3) / 64 == v2
    ensures Third(v2, v3) % 64 == v3
  {
  }

  // ------------------------------------------------------ one more digit read

  /** Two to the number of bits left over after `n` digits. */
  function Scale(n: nat): (s: nat)
    ensures 0 < s
  {
    if n % 4 == 0 then 1 else if n % 4 == 1 then 64 else if n % 4 == 2 then 16 else 4
  }

  /** The byte completed by the digit after `n` others, and what it leaves. */
  function Emitted(n: nat, left: nat, v: digit): nat {
    if n % 4 == 1 then (left * 64 + v) / 16 else if n % 4 == 2 then (left * 64 + v) / 4 else left * 64 + v
  }

  function Kept(n: nat, left: nat, v: digit): nat {
    if n % 4 == 0 then v else if n % 4 == 1 then v % 16 else if n % 4 == 2 then v % 4 else 0
  }

  function Completed(n: nat, left: nat, v: digit): seq<int> {
    if n % 4 == 0 then [] else [Emitted(n, left, v)]
  }

  lemma {:induction false} OneMoreDigit(vs: seq<digit>, v: digit)
    ensures Left(vs) < Scale(|vs|)
    ensures Out(vs + [v]) == Out(vs) + Completed(|vs|, Left(vs), v)
    ensures Left(vs + [v]) == Kept(|vs|, Left(vs), v)
    decreases |vs|
  {
    if |vs| < 4 {
      OneMoreDigitFirst(vs, v);
    } else {
      OneMoreDigit(vs[4..], v);
      assert (vs + [v])[4..] == vs[4..] + [v];
      OutGroup(vs);
      OutGroup(vs + [v]);
      ModFour(|vs|, Left(vs), v);
      hide Out, Left, Scale, Kept, Completed;
    }
  }

  lemma ModFour(n: nat, left: nat, v: digit)
    requires 4 <= n
    ensures Scale(n) == Scale(n - 4) && Kept(n, left, v) == Kept(n - 4, left, v)
    ensures Completed(n, left, v) == Completed(n - 4, left, v)
  {
  }

  lemma OutGroup(vs: seq<digit>)
    requires |vs| >= 4
    ensures Out(vs) == [First(vs[0], vs[1]), Second(vs[1], vs[2]), Third(vs[2], vs[3])] + Out(vs[4..])
    ensures Left(vs) == Left(vs[4..])
  {
  }

  lemma OneMoreDigitFirst(vs: seq<digit>, v: digit)
    requires |vs| < 4
    ensures Left(vs) < Scale(|vs|)
    ensures Out(vs + [v]) == Out(vs) + Completed(|vs|, Left(vs), v)
    ensures Left(vs + [v]) == Kept(|vs|, Left(vs), v)
  {
    hide Out, Left, Completed, Kept, Scale;
    if |vs| == 0 {
      OnNone(vs, v);
    } else if |vs| == 1 {
      OnOne(vs, v);
    } else if |vs| == 2 {
      OnTwo(vs, v);
    } else {
      OnThree(vs, v);
    }
  }

  lemma OnNone(vs: seq<digit>, v: digit)
    requires |vs| == 0
    ensures Left(vs) < Scale(|vs|)
    ensures Out(vs + [v]) == Out(vs) + Completed(|vs|, Left(vs), v)
    ensures Left(vs + [v]) == Kept(|vs|, Left(vs), v)
  {
    hide Out, Left, Emitted, First, Second;
    DigitsBelowTwo(vs, v);
  }

  lemma OnOne(vs: seq<digit>, v: digit)
    requires |vs| == 1
    ensures Left(vs) < Scale(|vs|)
    ensures Out(vs + [v]) == Out(vs) + Completed(|vs|, Left(vs), v)
    ensures Left(vs + [v]) == Kept(|vs|, Left(vs), v)
  {
    hide Out, Left, Emitted, First, Second;
    DigitsBelowThree(vs, v);
  }

  lemma OnTwo(vs: seq<digit>, v: digit)
    requires |vs| == 2
    ensures Left(vs) < Scale(|vs|)
    ensures Out(vs + [v]) == Out(vs) + Completed(|vs|, Left(vs), v)
    ensures Left(vs + [v]) == Kept(|vs|, Left(vs), v)
  {
    hide Out, Left, Emitted, First, Second;
    DigitsBelowFour(vs, v);
  }

  lemma OnThree(vs: seq<digit>, v: digit)
    requires |vs| == 3
    ensures Left(vs) < Scale(|vs|)
    ensures Out(vs + [v]) == Out(vs) + Completed(|vs|, Left(vs), v)
    ensures Left(vs + [v]) == Kept(|vs|, Left(vs), v)
  {
    hide Out, Left, Emitted, First, Second;
    DigitsFillGroup(vs, v);
  }

  lemma FirstEmitted(a: digit, v: digit)
    ensures First(a, v) == Emitted(1, a, v)
  {
    var q, r := v / 16, v % 16;
    assert a * 64 + v == (a * 4 + q) * 16 + r;
  }

  lemma SecondEmitted(a: digit, v: digit)
    ensures Second(a, v) == Emitted(2, a % 16, v)
  {
    var q, r := v / 4, v % 4;
    assert a % 16 * 64 + v == (a % 16 * 16 + q) * 4 + r;
  }

  lemma DigitsBelowTwo(vs: seq<digit>, v: digit)
    requires |vs| == 0
    ensures Left(vs) == 0 && Out(vs + [v]) == Out(vs) && Left(vs + [v]) == v
  {
  }

  lemma DigitsBelowThree(vs: seq<digit>, v: digit)
    requires |vs| == 1
    ensures Left(vs) < 64 && Out(vs + [v]) == Out(vs) + [Emitted(1, Left(vs), v)] && Left(vs + [v]) == v % 16
  {
    var more := vs + [v];
    assert more[0] == vs[0] && more[1] == v;
    assert Left(vs) == vs[0] && Out(vs) == [];
    FirstEmitted(vs[0], v);
    assert Out(more) == [First(more[0], more[1])];
  }

  lemma DigitsBelowFour(vs: seq<digit>, v: digit)
    requires |vs| == 2
    ensures Left(vs) < 16 && Out(vs + [v]) == Out(vs) + [Emitted(2, Left(vs), v)] && Left(vs + [v]) == v % 4
  {
    var more := vs + [v];
    assert more[0] == vs[0] && more[1] == vs[1] && more[2] == v;
    assert Left(vs) == vs[1] % 16 && Out(vs) == [First(vs[0], vs[1])];
    SecondEmitted(vs[1], v);
    assert Out(more) == [First(more[0], more[1]), Second(more[1], more[2])];
    hide Out, First, Second, Emitted;
  }

  lemma DigitsFillGroup(vs: seq<digit>, v: digit)
    requires |vs| == 3
    ensures Left(vs) < 4 && Out(vs + [v]) == Out(vs) + [Emitted(3, Left(vs), v)] && Left(vs + [v]) == 0
  {
    var more := vs + [v];
    assert more[0] == vs[0] && more[1] == vs[1] && more[2] == vs[2] && more[3] == v;
    assert more[4..] == [];
    OutGroup(more);
  }

  /** The accumulator of ssh_keys.c wraps at 32 bits; the bits still to be
      emitted never reach that far. */
  lemma AccumulatorStep(acc: nat, n: nat, left: nat, v: digit)
    requires acc % Scale(n) == left
    ensures var acc' := acc * 64 % 0x1_0000_0000 + v;
            && acc' % Scale(n + 1) == Kept(n, left, v)
            && (n % 4 != 0 ==> acc' / Scale(n + 1) % 256 == Emitted(n, left, v))
  {
    hide Scale, Emitted, Kept;
    if n % 4 == 0 {
      AccumulatorStep0(acc, n, left, v);
    } else if n % 4 == 1 {
      AccumulatorStep1(acc, n, left, v);
    } else if n % 4 == 2 {
      AccumulatorStep2(acc, n, left, v);
    } else {
      AccumulatorStep3(acc, n, left, v);
    }
  }

  lemma AccumulatorStep0(acc: nat, n: nat, left: nat, v: digit)
    requires n % 4 == 0 && acc % Scale(n) == left
    ensures (acc * 64 % 0x1_0000_0000 + v) % Scale(n + 1) == Kept(n, left, v)
  {
    var wraps := acc * 64 / 0x1_0000_0000;
    Kept64(acc - 0x400_0000 * wraps, v);
  }

  lemma AccumulatorStep1(acc: nat, n: nat, left: nat, v: digit)
    requires n % 4 == 1 && acc % Scale(n) == left
    ensures var acc' := acc * 64 % 0x1_0000_0000 + v;
            acc' % Scale(n + 1) == Kept(n, left, v) && acc' / Scale(n + 1) % 256 == Emitted(n, left, v)
  {
    hide Scale, Emitted, Kept;
    var wraps, q := acc * 64 / 0x1_0000_0000, acc / 64;
    Phase1(n, left, v);
    WrapSum1(acc, left, v);
    Kept16(q - 0x10_0000 * wraps, left, v);
  }

  lemma Phase1(n: nat, left: nat, v: digit)
    requires n % 4 == 1
    ensures Scale(n) == 64 && Scale(n + 1) == 16
    ensures Kept(n, left, v) == (left * 64 + v) % 16 && Emitted(n, left, v) == (left * 64 + v) / 16
  {
  }

  lemma WrapSum1(acc: nat, left: nat, v: digit)
    requires acc % 64 == left
    ensures acc * 64 % 0x1_0000_0000 + v == 4096 * (acc / 64 - 0x10_0000 * (acc * 64 / 0x1_0000_0000)) + 64 * left + v
  {
  }

  lemma AccumulatorStep2(acc: nat, n: nat, left: nat, v: digit)
    requires n % 4 == 2 && acc % Scale(n) == left
    ensures var acc' := acc * 64 % 0x1_0000_0000 + v;
            acc' % Scale(n + 1) == Kept(n, left, v) && acc' / Scale(n + 1) % 256 == Emitted(n, left, v)
  {
    var wraps, q := acc * 64 / 0x1_0000_0000, acc / 16;
    assert acc * 64 % 0x1_0000_0000 + v == 1024 * (q - 0x40_0000 * wraps) + 64 * left + v;
    Kept4(q - 0x40_0000 * wraps, left, v);
  }

  lemma AccumulatorStep3(acc: nat, n: nat, left: nat, v: digit)
    requires n % 4 == 3 && acc % Scale(n) == left
    ensures var acc' := acc * 64 % 0x1_0000_0000 + v;
            acc' % Scale(n + 1) == Kept(n, left, v) && acc' / Scale(n + 1) % 256 == Emitted(n, left, v)
  {
    var wraps, q := acc * 64 / 0x1_0000_0000, acc / 4;
    assert acc * 64 % 0x1_0000_0000 + v == 256 * (q - 0x100_0000 * wraps) + 64 * left + v;
    Kept1(q - 0x100_0000 * wraps, left, v);
  }

  lemma Kept64(high: int, v: digit)
    ensures (64 * high + v) % 64 == v
  {
  }

  lemma Kept16(high: int, left: nat, v: digit)
    requires left < 64
    ensures (4096 * high + 64 * left + v) % 16 == (left * 64 + v) % 16
    ensures (4096 * high + 64 * left + v) / 16 % 256 == (left * 64 + v) / 16
  {
  }

  lemma Kept4(high: int, left: nat, v: digit)
    requires left < 16
    ensures (1024 * high + 64 * left + v) % 4 == (left * 64 + v) % 4
    ensures (1024 * high + 64 * left + v) / 4 % 256 == (left * 64 + v) / 4
  {
  }

  lemma Kept1(high: int, left: nat, v: digit)
    requires left < 4
    ensures (256 * high + 64 * left + v) % 256 == left * 64 + v
  {
  }

  function Pow2(n: nat): (p: nat)
    ensures 0 < p
  {
    if n == 0 then 1 else 2 * Pow2(n - 1)
  }

  lemma Pow2Bits(n: nat)
    ensures Pow2(Bits(n)) == Scale(n)
  {
    assert Pow2(1) == 2 * Pow2(0) && Pow2(2) == 2 * Pow2(1) && Pow2(3) == 2 * Pow2(2);
    assert Pow2(4) == 2 * Pow2(3) && Pow2(5) == 2 * Pow2(4) && Pow2(6) == 2 * Pow2(5);
    BitsTable(n);
    hide Bits;
  }

  lemma BitsTable(n: nat)
    ensures Bits(n) == if n % 4 == 0 then 0 else if n % 4 == 1 then 6 else if n % 4 == 2 then 4 else 2
  {
  }

  // ------------------------------------------------- the decoder of ssh_keys.c

  /** The canonical encoding of `d`, padded or wholly unpadded. */
  predicate Canonical(text: string, d: seq<byte>) {
    d != [] && (text == Encode(d) || text == Unpadded(d))
  }

  predicate Accepts(text: string, d: seq<byte>, capacity: nat) {
    Canonical(text, d) && |d| <= capacity
  }

  /** Text made of the symbols of `vs` and then only padding signs. */
  predicate Spells(text: string, vs: seq<digit>) {
    && |vs| <= |text|
    && (forall j :: 0 <= j < |vs| ==> SymbolValue(text[j]) == vs[j])
    && (forall j :: |vs| <= j < |text| ==> text[j] == '=')
  }

  /** How many padding signs go with `n` digits. */
  predicate Padded(n: nat, padding: nat) {
    n % 4 != 1 && (padding == 0 || padding == (4 - n % 4) % 4)
  }

  /** Canonical text, digit by digit. */
  lemma CanonicalIff(text: string, d: seq<byte>)
    ensures Canonical(text, d) <==>
            d != [] && Spells(text, Digits(d)) && Padded(|Digits(d)|, |text| - |Digits(d)|)
  {
    var vs := Digits(d);
    hide Digits, SymbolValue, Symbol;
    forall j | 0 <= j < |vs| ensures SymbolValue(Symbol(vs[j])) == vs[j] && Symbol(vs[j]) != '=' {
      SymbolRoundTrip('=', vs[j]);
    }
    if Spells(text, vs) {
      forall j | 0 <= j < |vs| ensures text[j] == Symbol(vs[j]) {
        SymbolRoundTrip(text[j], vs[j]);
      }
      assert text[..|vs|] == Unpadded(d);
      assert text[|vs|..] == Padding(|text| - |vs|);
      assert text == text[..|vs|] + text[|vs|..];
    }
    assert (3 - |d| % 3) % 3 == (4 - |vs| % 4) % 4;
    if Canonical(text, d) {
      assert |text| == |vs| || |text| == |vs| + (3 - |d| % 3) % 3;
      assert Spells(text, vs);
    }
  }

  lemma SpellsOnce(text: string, vs: seq<digit>, ws: seq<digit>)
    requires Spells(text, vs) && Spells(text, ws)
    ensures |vs| >= |ws|
    ensures |vs| == |ws| ==> vs == ws
  {
    if |vs| < |ws| {
      SymbolRoundTrip('=', ws[|vs|]);
    }
  }

  /** Canonical text, padded or not, has one decoding. */
  lemma CanonicalUnique(text: string, a: seq<byte>, b: seq<byte>)
    requires Canonical(text, a) && Canonical(text, b)
    ensures a == b
  {
    CanonicalIff(text, a);
    CanonicalIff(text, b);
    OutOfDigits(a);
    OutOfDigits(b);
    hide Digits, Out, Left, Padded, Spells, Canonical;
    SpellsOnce(text, Digits(a), Digits(b));
    SpellsOnce(text, Digits(b), Digits(a));
  }

  /** The first `i` characters are the symbols of `vs` and then padding. */
  predicate Consumed(text: string, i: nat, vs: seq<digit>): (r: bool)
    ensures r ==> |vs| <= i <= |text|
  {
    i <= |text| && Spells(text[..i], vs)
  }

  /** What any acceptable reading of the text must agree with. */
  lemma Agree(text: string, i: nat, vs: seq<digit>, d: seq<byte>, capacity: nat)
    requires Consumed(text, i, vs) && Accepts(text, d, capacity)
    ensures var ds := Digits(d);
            && |vs| <= |ds| <= |text| && vs == ds[..|vs|] && (|vs| < i || |vs| == |ds| ==> vs == ds)
            && Padded(|ds|, |text| - |ds|) && 2 <= |ds|
            && (forall j :: 0 <= j < |ds| ==> text[j] != '=' && SymbolValue(text[j]) >= 0)
            && (forall j :: |ds| <= j < |text| ==> text[j] == '=')
            && Left(ds) == 0 && 6 * |ds| / 8 == |d| <= capacity
  {
    CanonicalIff(text, d);
    OutOfDigits(d);
    var ds := Digits(d);
    hide Digits, Left, Out;
    assert |ds| < i ==> text[..i][|ds|] == text[|ds|];
    assert forall j :: 0 <= j < |vs| ==> text[..i][j] == text[j];
    if |vs| < i {
      assert text[..i][|vs|] == '=';
    }
  }

  ghost predicate NoneAccepted(text: string, capacity: nat) {
    forall d :: !Accepts(text, d, capacity)
  }

  datatype SshError = Invalid | TooBig

  lemma ReadNothing()
    ensures Scale(0) == 1 && Out([]) == [] && Left([]) == 0
  {
  }

  lemma ValueRange(c: char)
    ensures -1 <= SymbolValue(c) < 64 && SymbolValue('=') == -1
  {
  }

  lemma BitsStep(n: nat)
    ensures Bits(n) + 6 == Bits(n + 1) + (if n % 4 == 0 then 0 else 8)
    ensures Bits(n) < 8 && Pow2(Bits(n)) == Scale(n) && (Bits(n) == 0 ==> Scale(n) == 1)
  {
    Pow2Bits(n);
    BitsTable(n);
    BitsTable(n + 1);
    hide Bits, Pow2;
  }

  /** A symbol goes into the accumulator and completes at most one byte. */
  method PushSymbol(out: seq<byte>, accumulator: nat, bits: nat, value: digit, capacity: nat, ghost vs: seq<digit>)
    returns (fits: bool, out': seq<byte>, accumulator': nat, bits': nat)
    requires out == Out(vs) && |out| <= capacity
    requires bits == Bits(|vs|) && accumulator % Scale(|vs|) == Left(vs)
    ensures fits <==> |Out(vs + [value])| <= capacity
    ensures fits ==> out' == Out(vs + [value]) && bits' == Bits(|vs| + 1)
    ensures fits ==> accumulator' % Scale(|vs| + 1) == Left(vs + [value])
  {
    hide Out, Left, Emitted, Kept, Pow2, Scale;
    OneMoreDigit(vs, value);
    AccumulatorStep(accumulator, |vs|, Left(vs), value);
    BitsStep(|vs|);
    BitsStep(|vs| + 1);
    out' := out;
    accumulator' := accumulator * 64 % 0x1_0000_0000 + value;
    bits' := bits + 6;
    while bits' >= 8
      invariant || (bits' == Bits(|vs| + 1) && out' == Out(vs + [value]))
                || (bits' == Bits(|vs| + 1) + 8 && out' == out && |vs| % 4 != 0)
      invariant |out'| <= capacity
      decreases bits'
    {
      bits' := bits' - 8;
      if |out'| >= capacity {
        return false, out', accumulator', bits';
      }
      out' := out' + [accumulator' / Pow2(bits') % 256];
    }
    fits := true;
  }

  /** No acceptable reading goes on past text that already disagrees. */
  lemma Rejected(text: string, i: nat, vs: seq<digit>, capacity: nat)
    requires Consumed(text, i, vs)
    requires || (i == 0 && (|text| == 0 || |text| % 4 == 1))
             || |vs| + 2 < i
             || (i < |text| && text[i] != '=' && (|vs| < i || SymbolValue(text[i]) < 0))
             || |Out(vs)| > capacity
             || (i == |text| && (Left(vs) != 0 || !Padded(|vs|, |text| - |vs|)))
    ensures NoneAccepted(text, capacity)
  {
    hide Consumed, Accepts, Digits, Left, Out, SymbolValue;
    forall d ensures !Accepts(text, d, capacity) {
      if Accepts(text, d, capacity) {
        Agree(text, i, vs, d, capacity);
        Disagrees(text, i, vs, Digits(d), d, capacity);
      }
    }
  }

  lemma Disagrees(text: string, i: nat, vs: seq<digit>, ds: seq<digit>, d: seq<byte>, capacity: nat)
    requires |vs| <= |ds| <= |text| && vs == ds[..|vs|] && (|vs| < i || |vs| == |ds| ==> vs == ds)
    requires Padded(|ds|, |text| - |ds|) && 2 <= |ds|
    requires forall j :: 0 <= j < |ds| ==> text[j] != '=' && SymbolValue(text[j]) >= 0
    requires forall j :: |ds| <= j < |text| ==> text[j] == '='
    requires Left(ds) == 0 && 6 * |ds| / 8 == |d| <= capacity && |vs| <= i <= |text|
    ensures !(i == 0 && (|text| == 0 || |text| % 4 == 1))
    ensures |vs| + 2 >= i
    ensures !(i < |text| && text[i] != '=' && (|vs| < i || SymbolValue(text[i]) < 0))
    ensures |Out(vs)| <= capacity
    ensures i == |text| ==> Left(vs) == 0 && Padded(|vs|, |text| - |vs|)
  {
    hide Left, Out, SymbolValue;
  }

  /** decode_base64 of ssh_keys.c: it accepts exactly the canonical encodings,
      padded or wholly unpadded, whose decoding fits. */
  method DecodeSsh(text: string, capacity: nat) returns (r: Result<seq<byte>, SshError>)
    ensures r.Ok? ==> Accepts(text, r.value, capacity)
    ensures r.Err? ==> NoneAccepted(text, capacity)
    ensures r == Err(TooBig) ==> capacity < 6 * |text| / 8
  {
    hide Digits, Out, Left, Scale, SymbolValue, NoneAccepted, Consumed, Padded, Bits, Pow2, Accepts;
    var length := |text|;
    ghost var vs: seq<digit> := [];
    assert Scale(0) == 1 && Out([]) == [] && Left([]) == 0 by { ReadNothing(); }
    assert Consumed(text, 0, []) by { NothingConsumed(text); }
    assert Bits(0) == 0 by { BitsTable(0); }
    if length == 0 || length % 4 == 1 {
      Rejected(text, 0, [], capacity);
      return Err(Invalid);
    }
    var out: seq<byte>, accumulator: nat, bits: nat, padding: nat := [], 0, 0, 0;
    var sawPadding := false;
    var i := 0;
    while i < length
      invariant 0 <= i <= length
      invariant Consumed(text, i, vs) && i == |vs| + padding && padding <= 2
      invariant sawPadding <==> padding > 0
      invariant out == Out(vs) && |out| <= capacity
      invariant bits == Bits(|vs|) && accumulator % Scale(|vs|) == Left(vs)
    {
      var c := text[i];
      ConsumeNext(text, i, vs);
      if c == '=' {
        sawPadding := true;
        padding := padding + 1;
        i := i + 1;
        if padding > 2 {
          Rejected(text, i, vs, capacity);
          return Err(Invalid);
        }
        continue;
      }
      var value := SymbolValue(c);
      if sawPadding || value < 0 {
        Rejected(text, i, vs, capacity);
        return Err(Invalid);
      }
      var fits;
      fits, out, accumulator, bits := PushSymbol(out, accumulator, bits, value, capacity, vs);
      vs := vs + [value];
      i := i + 1;
      if !fits {
        Rejected(text, i, vs, capacity);
        return Err(TooBig);
      }
    }
    BitsStep(|vs|);
    PaddingChecks(|vs|, padding);
    if (padding > 0 && length % 4 != 0) || (padding == 1 && bits != 2) || (padding == 2 && bits != 4) {
      Rejected(text, i, vs, capacity);
      return Err(Invalid);
    }
    if bits > 0 && accumulator % Pow2(bits) != 0 {
      Rejected(text, i, vs, capacity);
      return Err(Invalid);
    }
    Accepted(text, vs, capacity);
    r := Ok(out);
  }

  /** The three padding checks together ask for a correct number of signs. */
  lemma PaddingChecks(n: nat, padding: nat)
    requires padding <= 2 && (n + padding) % 4 != 1
    ensures Padded(n, padding) <==>
            && (padding > 0 ==> (n + padding) % 4 == 0)
            && (padding == 1 ==> Bits(n) == 2) && (padding == 2 ==> Bits(n) == 4)
  {
    BitsTable(n);
    hide Bits;
  }

  lemma NothingConsumed(text: string)
    ensures Consumed(text, 0, [])
  {
  }

  lemma ConsumeNext(text: string, i: nat, vs: seq<digit>)
    requires i < |text| && Consumed(text, i, vs)
    ensures text[i] == '=' ==> Consumed(text, i + 1, vs)
    ensures i == |vs| && 0 <= SymbolValue(text[i]) ==>
              SymbolValue(text[i]) < 64 && Consumed(text, i + 1, vs + [SymbolValue(text[i])])
  {
    ValueRange(text[i]);
    assert text[..i + 1] == text[..i] + [text[i]];
    hide SymbolValue;
  }

  lemma Accepted(text: string, vs: seq<digit>, capacity: nat)
    requires Consumed(text, |text|, vs) && text != ""
    requires Left(vs) == 0 && Padded(|vs|, |text| - |vs|) && |Out(vs)| <= capacity
    ensures Accepts(text, Out(vs), capacity)
  {
    assert text[..|text|] == text;
    DigitsOfOut(vs);
    hide Digits, Out, Left;
    CanonicalIff(text, Out(vs));
  }

  // ---------------------------------------------- the decoder of fwserialrx.c

  /** Four characters of text; padding is allowed only in the last group. */
  function GroupDecode(g: string, last: bool): Option<seq<byte>>
    requires |g| == 4
  {
    var v0, v1, v2, v3 := SymbolValue(g[0]), SymbolValue(g[1]), SymbolValue(g[2]), SymbolValue(g[3]);
    if v0 < 0 || v1 < 0 then None
    else if last && g[2] == '=' && g[3] == '=' then Some([First(v0, v1)])
    else if v2 < 0 then None
    else if last && g[3] == '=' then Some([First(v0, v1), Second(v1, v2)])
    else if v3 < 0 then None
    else Some([First(v0, v1), Second(v1, v2), Third(v2, v3)])
  }

  function UartDecodeFrom(text: string, at: nat, out: seq<byte>, capacity: nat): Option<seq<byte>>
    requires at <= |text| && |text| % 4 == 0 && at % 4 == 0
    decreases |text| - at
  {
    if at == |text| then Some(out) else
    match GroupDecode(text[at..at + 4], at + 4 == |text|)
    case None => None
    case Some(bytes) =>
      if |out| + |bytes| > capacity then None
      else UartDecodeFrom(text, at + 4, out + bytes, capacity)
  }

  function UartDecode(text: string, capacity: nat): Option<seq<byte>> {
    if |text| == 0 || |text| % 4 != 0 then None else UartDecodeFrom(text, 0, [], capacity)
  }

  /** The per-group loop of decode_base64 in fwserialrx.c. */
  method ReadGroup(g: string, last: bool) returns (r: Option<seq<byte>>)
    requires |g| == 4
    ensures r == GroupDecode(g, last)
  {
    hide First, Second, Third, SymbolValue;
    var values: seq<digit> := [0, 0, 0, 0];
    var padding := 0;
    ValueRange('=');
    for i := 0 to 4
      invariant |values| == 4 && 0 <= padding <= i && (padding > 0 ==> last && padding + 2 <= i)
      invariant forall j :: 0 <= j < i - padding ==> values[j] == SymbolValue(g[j])
      invariant forall j :: i - padding <= j < i ==> g[j] == '='
    {
      ValueRange(g[i]);
      if g[i] == '=' {
        if i < 2 || !last {
          return None;
        }
        values := values[i := 0];
        padding := padding + 1;
      } else {
        if padding > 0 || SymbolValue(g[i]) < 0 {
          return None;
        }
        values := values[i := SymbolValue(g[i])];
      }
    }
    var bytes := 3 - padding;
    var word := Word(values[0], values[1], values[2], values[3]);
    WordBytes(values[0], values[1], values[2], values[3]);
    if bytes == 1 {
      return Some([word / 0x10000 % 256]);
    }
    if bytes == 2 {
      return Some([word / 0x10000 % 256, word / 0x100 % 256]);
    }
    r := Some([word / 0x10000 % 256, word / 0x100 % 256, word % 256]);
  }

  /** The 24-bit word a group assembles. */
  function Word(v0: int, v1: int, v2: int, v3: int): int {
    v0 * 0x40000 + v1 * 0x1000 + v2 * 0x40 + v3
  }

  lemma WordBytes(v0: digit, v1: digit, v2: digit, v3: digit)
    ensures Word(v0, v1, v2, v3) / 0x10000 % 256 == First(v0, v1)
    ensures Word(v0, v1, v2, v3) / 0x100 % 256 == Second(v1, v2)
    ensures Word(v0, v1, v2, v3) % 256 == Third(v2, v3)
  {
    GroupDigits(v0, v1, v2, v3);
    assert Word(v0, v1, v2, v3) == First(v0, v1) * 0x10000 + Second(v1, v2) * 0x100 + Third(v2, v3);
    hide First, Second, Third, Word;
    SplitWord(First(v0, v1), Second(v1, v2), Third(v2, v3));
  }

  lemma SplitWord(x: byte, y: byte, z: byte)
    ensures (x as int * 0x10000 + y as int * 0x100 + z) / 0x10000 % 256 == x
    ensures (x as int * 0x10000 + y as int * 0x100 + z) / 0x100 % 256 == y
    ensures (x as int * 0x10000 + y as int * 0x100 + z) % 256 == z
  {
  }

  /** decode_base64 of fwserialrx.c. */
  method DecodeUart(text: string, capacity: nat) returns (r: Option<seq<byte>>)
    ensures r == UartDecode(text, capacity)
  {
    hide GroupDecode;
    var length := |text|;
    if length == 0 || length % 4 != 0 {
      return None;
    }
    var out: seq<byte> := [];
    var offset := 0;
    while offset < length
      invariant 0 <= offset <= length && offset % 4 == 0
      invariant UartDecodeFrom(text, offset, out, capacity) == UartDecodeFrom(text, 0, [], capacity)
    {
      var group := ReadGroup(text[offset..offset + 4], offset + 4 == length);
      if group.None? {
        return None;
      }
      if |out| + |group.value| > capacity {
        return None;
      }
      out := out + group.value;
      offset := offset + 4;
    }
    r := Some(out);
  }

  // ---------------------------------------------------- what the two agree on

  /** The decoder of the UART protocol inverts the standard encoder. */
  lemma UartInvertsEncode(d: seq<byte>, capacity: nat)
    requires 0 < |d| <= capacity
    ensures UartDecode(Encode(d), capacity) == Some(d)
  {
    assert Encode(d)[0..] == Encode(d) && [] + d == d;
    EncodeLength(d);
    UartDecodesSuffix(Encode(d), 0, [], d, capacity);
  }

  lemma {:induction false} EncodeLength(d: seq<byte>)
    ensures |Encode(d)| % 4 == 0 && (d != [] ==> Encode(d) != [])
  {
    hide Digits, Symbols, Padding;
    WholeGroup(|d| / 3, |d| % 3, |Digits(d)|, (3 - |d| % 3) % 3);
  }

  lemma WholeGroup(groups: nat, over: nat, digits: nat, padding: nat)
    requires over < 3 && digits == groups * 4 + (if over == 0 then 0 else over + 1) && padding == (3 - over) % 3
    ensures (digits + padding) % 4 == 0 && (groups > 0 || over > 0 ==> digits > 0)
  {
    if over == 0 {
      assert digits + padding == 4 * groups;
    } else {
      assert digits + padding == 4 * (groups + 1);
    }
  }

  /** The encoding of `d` is its first group and the encoding of the rest. */
  lemma EncodeGroup(d: seq<byte>)
    requires |d| >= 3
    ensures |Encode(d)| >= 4
    ensures Encode(d)[..4] == [Symbol(d[0] / 4), Symbol(d[0] % 4 * 16 + d[1] / 16),
                               Symbol(d[1] % 16 * 4 + d[2] / 64), Symbol(d[2] % 64)]
    ensures Encode(d)[4..] == Encode(d[3..])
  {
    var e := Encode(d);
    assert |d[3..]| % 3 == |d| % 3;
    assert Digits(d)[4..] == Digits(d[3..]);
    hide Symbol;
    assert Unpadded(d)[4..] == Unpadded(d[3..]);
  }

  lemma {:induction false} UartDecodesSuffix(text: string, at: nat, out: seq<byte>, d: seq<byte>, capacity: nat)
    requires at <= |text| && |text| % 4 == 0 && at % 4 == 0
    requires text[at..] == Encode(d) && |out| + |d| <= capacity
    ensures UartDecodeFrom(text, at, out, capacity) == Some(out + d)
    decreases |d|
  {
    hide GroupDecode, Symbol;
    if |d| == 0 {
      assert out + d == out;
    } else if |d| < 3 {
      LastGroup(d);
      assert text[at..at + 4] == text[at..];
    } else {
      EncodeGroup(d);
      FullGroup(d, at + 4 == |text|);
      assert text[at..at + 4] == text[at..][..4];
      assert text[at + 4..] == text[at..][4..];
      UartDecodesSuffix(text, at + 4, out + d[..3], d[3..], capacity);
      assert out + d == (out + d[..3]) + d[3..];
    }
  }

  lemma FullGroup(d: seq<byte>, last: bool)
    requires |d| >= 3 && |Encode(d)| >= 4
    ensures GroupDecode(Encode(d)[..4], last) == Some(d[..3])
  {
    EncodeGroup(d);
    GroupOut(d[0], d[1], d[2]);
    SymbolRoundTrip('=', d[0] / 4);
    SymbolRoundTrip('=', d[0] % 4 * 16 + d[1] / 16);
    SymbolRoundTrip('=', d[1] % 16 * 4 + d[2] / 64);
    SymbolRoundTrip('=', d[2] % 64);
    assert d[..3] == [d[0], d[1], d[2]];
    hide Encode, Symbol, SymbolValue, First, Second, Third;
  }

  lemma LastGroup(d: seq<byte>)
    requires 0 < |d| < 3
    ensures |Encode(d)| == 4 && GroupDecode(Encode(d), true) == Some(d)
  {
    var e := Encode(d);
    if |d| == 1 {
      assert e[0] == Symbol(d[0] / 4) && e[1] == Symbol(d[0] % 4 * 16) && e[2] == '=' && e[3] == '=';
      assert d == [d[0]];
      GroupOut(d[0], 0, 0);
      SymbolRoundTrip('=', d[0] / 4);
      SymbolRoundTrip('=', d[0] % 4 * 16);
    } else {
      assert e[0] == Symbol(d[0] / 4) && e[1] == Symbol(d[0] % 4 * 16 + d[1] / 16) && e[2] == Symbol(d[1] % 16 * 4);
      assert e[3] == '=';
      assert d == [d[0], d[1]];
      GroupOut(d[0], d[1], 0);
      SymbolRoundTrip('=', d[0] / 4);
      SymbolRoundTrip('=', d[0] % 4 * 16 + d[1] / 16);
      SymbolRoundTrip('=', d[1] % 16 * 4);
    }
    hide Symbol, SymbolValue, First, Second, Third;
  }

  /** How many padding signs the last group of the text may end in. */
  function Pads(text: string): (n: nat)
    ensures n <= 2 && n <= |text|
  {
    if |text| >= 2 && text[|text| - 2] == '=' && text[|text| - 1] == '=' then 2
    else if |text| >= 1 && text[|text| - 1] == '=' then 1
    else 0
  }

  /** Groups of four symbols, the last one with up to two padding signs. */
  predicate WholeGroups(text: string) {
    && text != "" && |text| % 4 == 0
    && forall j :: 0 <= j < |text| - Pads(text) ==> 0 <= SymbolValue(text[j])
  }

  function Values(text: string): (vs: seq<digit>)
    requires WholeGroups(text)
    ensures |vs| == |text| - Pads(text) && Spells(text, vs)
  {
    seq(|text| - Pads(text), j requires 0 <= j < |text| - Pads(text) => (ValueRange(text[j]); SymbolValue(text[j])))
  }

  /** The bits of the last digit before the padding that go into no byte. */
  function UnusedBits(text: string): int {
    if |text| < 4 || Pads(text) == 0 then 0
    else if Pads(text) == 1 then SymbolValue(text[|text| - 2]) % 4
    else SymbolValue(text[|text| - 3]) % 16
  }

  lemma {:induction false} LeftOfLast(vs: seq<digit>)
    ensures |vs| % 4 == 0 ==> Left(vs) == 0
    ensures |vs| % 4 == 2 ==> Left(vs) == vs[|vs| - 1] % 16
    ensures |vs| % 4 == 3 ==> Left(vs) == vs[|vs| - 1] % 4
    decreases |vs|
  {
    if |vs| >= 4 {
      LeftOfLast(vs[4..]);
    }
  }

  lemma UnusedIsLeft(text: string)
    requires WholeGroups(text)
    ensures UnusedBits(text) == Left(Values(text))
  {
    LeftOfLast(Values(text));
    hide Left, SymbolValue;
  }

  predicate AllSymbols(g: string) {
    forall j :: 0 <= j < |g| ==> 0 <= SymbolValue(g[j])
  }

  lemma GroupsSplit(g: string, rest: string)
    requires |g| == 4 && rest != "" && |rest| % 4 == 0
    ensures Pads(g + rest) == Pads(rest)
    ensures WholeGroups(g + rest) <==> AllSymbols(g) && WholeGroups(rest)
  {
    hide SymbolValue;
    var s := g + rest;
    assert Pads(s) == Pads(rest);
    if WholeGroups(s) {
      forall j | 0 <= j < |rest| - Pads(rest)
        ensures 0 <= SymbolValue(rest[j])
      {
        assert s[4 + j] == rest[j];
      }
      forall j | 0 <= j < 4
        ensures 0 <= SymbolValue(g[j])
      {
        assert s[j] == g[j];
      }
    }
  }

  lemma FullGroupReads(g: string)
    requires |g| == 4
    ensures GroupDecode(g, false).Some? <==> AllSymbols(g)
    ensures AllSymbols(g) ==>
              GroupDecode(g, false) == Some([First(SymbolValue(g[0]), SymbolValue(g[1])),
                                             Second(SymbolValue(g[1]), SymbolValue(g[2])),
                                             Third(SymbolValue(g[2]), SymbolValue(g[3]))])
  {
    hide SymbolValue, First, Second, Third;
    if GroupDecode(g, false).Some? {
      forall j | 0 <= j < 4
        ensures 0 <= SymbolValue(g[j])
      {
        assert j == 0 || j == 1 || j == 2 || j == 3;
      }
    }
  }

  /** One full group and what follows it. */
  lemma GroupReads(g: string, rest: string)
    requires |g| == 4 && rest != "" && |rest| % 4 == 0
    ensures WholeGroups(g + rest) <==> GroupDecode(g, false).Some? && WholeGroups(rest)
    ensures WholeGroups(g + rest) && WholeGroups(rest) && GroupDecode(g, false).Some? ==>
              Out(Values(g + rest)) == GroupDecode(g, false).value + Out(Values(rest))
  {
    hide SymbolValue, First, Second, Third, AllSymbols, GroupDecode, WholeGroups, Pads, Out;
    GroupsSplit(g, rest);
    FullGroupReads(g);
    if WholeGroups(g + rest) {
      var vs := Values(g + rest);
      OutGroup(vs);
      forall j | 0 <= j < |vs|
        ensures vs[j] == SymbolValue((g + rest)[j])
      {
      }
      assert vs[4..] == Values(rest) by {
        forall j | 0 <= j < |rest| - Pads(rest)
          ensures vs[4..][j] == Values(rest)[j]
        {
          assert (g + rest)[4 + j] == rest[j];
        }
      }
      assert forall j :: 0 <= j < 4 ==> (g + rest)[j] == g[j];
    }
  }

  /** The last group. */
  lemma LastReads(g: string)
    requires |g| == 4
    ensures WholeGroups(g) <==> GroupDecode(g, true).Some?
    ensures WholeGroups(g) ==> GroupDecode(g, true) == Some(Out(Values(g)))
  {
    ValueRange('=');
    hide SymbolValue, First, Second, Third;
    if WholeGroups(g) {
      var vs := Values(g);
      assert vs[0] == SymbolValue(g[0]) && vs[1] == SymbolValue(g[1]);
      if |vs| == 4 {
        assert vs[2] == SymbolValue(g[2]) && vs[3] == SymbolValue(g[3]);
        OutGroup(vs);
        assert vs[4..] == [] && Out([]) == [];
        assert Out(vs) == [First(vs[0], vs[1]), Second(vs[1], vs[2]), Third(vs[2], vs[3])];
      }
    }
  }

  lemma {:induction false} UartReads(text: string, at: nat, out: seq<byte>, capacity: nat)
    requires at < |text| && |text| % 4 == 0 && at % 4 == 0
    ensures var s := text[at..];
            UartDecodeFrom(text, at, out, capacity) ==
            if WholeGroups(s) && |out| + |Out(Values(s))| <= capacity then Some(out + Out(Values(s))) else None
    decreases |text| - at
  {
    hide GroupDecode, WholeGroups, Values, Out;
    var g := text[at..at + 4];
    if at + 4 == |text| {
      assert text[at..] == g;
      LastReads(g);
    } else {
      var rest := text[at + 4..];
      assert text[at..] == g + rest;
      GroupReads(g, rest);
      if GroupDecode(g, false).Some? {
        var bytes := GroupDecode(g, false).value;
        UartReads(text, at + 4, out + bytes, capacity);
        if WholeGroups(rest) {
          assert out + bytes + Out(Values(rest)) == out + (bytes + Out(Values(rest)));
        }
      }
    }
  }

  /** The decoder of the UART protocol accepts exactly whole groups of symbols whose
      bytes fit, and never looks at bits left over. */
  lemma UartAcceptsIff(text: string, d: seq<byte>, capacity: nat)
    ensures UartDecode(text, capacity) == Some(d) <==>
              WholeGroups(text) && d == Out(Values(text)) && |d| <= capacity
  {
    hide Values, Out;
    if text != "" && |text| % 4 == 0 {
      assert text[0..] == text;
      UartReads(text, 0, [], capacity);
      if WholeGroups(text) {
        assert [] + Out(Values(text)) == Out(Values(text));
      }
    }
  }

  /** On text in whole groups of four the decoder of ssh_keys.c accepts exactly what
      the other one accepts with no bit set that goes unused, and the two then give
      the same bytes. */
  lemma DecodersAgree(text: string, d: seq<byte>, capacity: nat)
    requires |text| % 4 == 0
    ensures Accepts(text, d, capacity) <==> UartDecode(text, capacity) == Some(d) && UnusedBits(text) == 0
  {
    UartAcceptsIff(text, d, capacity);
    CanonicalIff(text, d);
    hide Digits, Out, Left, Values, SymbolValue, Symbol, UnusedBits, UartDecode, WholeGroups;
    if Accepts(text, d, capacity) {
      assert text == Encode(d);
      UartInvertsEncode(d, capacity);
      OutOfDigits(d);
      UnusedIsLeft(text);
      SpellsOnce(text, Values(text), Digits(d));
      SpellsOnce(text, Digits(d), Values(text));
    } else if UartDecode(text, capacity) == Some(d) && UnusedBits(text) == 0 {
      UnusedIsLeft(text);
      GroupsPadded(text);
      DigitsOfOut(Values(text));
    }
  }

  lemma GroupsPadded(text: string)
    requires WholeGroups(text)
    ensures |Values(text)| % 4 != 1 && Padded(|Values(text)|, |text| - |Values(text)|) && Out(Values(text)) != []
  {
    hide SymbolValue;
  }

  /** The UART decoder takes text that is canonical for nothing: it does not look
      at the bits that are left over. */
  lemma UartTakesMore(capacity: nat)
    requires capacity >= 1
    ensures UartDecode("QR==", capacity) == Some([65]) && NoneAccepted("QR==", capacity)
  {
    var text := "QR==";
    assert text[0..4] == text;
    assert SymbolValue('Q') == 16 && SymbolValue('R') == 17;
    assert GroupDecode(text, true) == Some([65]);
    assert [] + [65] == [65];
    assert UartDecodeFrom(text, 4, [65], capacity) == Some([65]);
    forall d ensures !Accepts("QR==", d, capacity) {
      if Accepts("QR==", d, capacity) {
        NotCanonical(d);
      }
    }
  }

  lemma NotCanonical(d: seq<byte>)
    ensures !Canonical("QR==", d)
  {
    var text := "QR==";
    assert text[1] == 'R' && text[2] == '=';
    assert SymbolValue('R') == 17 && SymbolValue('=') < 0;
    CanonicalIff(text, d);
    OutOfDigits(d);
    hide Digits, Out, Canonical, Symbol, SymbolValue;
  }
}
