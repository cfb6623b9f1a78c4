/** The protobuf decoder of buildroot/packages/configd/portstats.c. */
module PortStats {
  import opened Bytes

  const TWO64: int := 0x1_0000_0000_0000_0000
  const TWO32: int := 0x1_0000_0000
  const MAX_PORTS: int := 52

  // ------------------------------------------------------------------ varints

  /** Seven bits a byte, least significant first. */
  function Base128(s: seq<byte>): nat
    decreases |s|
  {
    if s == [] then 0 else s[0] % 128 + 128 * Base128(s[1..])
  }

  function Pow128(n: nat): (p: nat)
    ensures p >= 1
  {
    if n == 0 then 1 else 128 * Pow128(n - 1)
  }

  /** The index of the first byte without the continuation bit. */
  function Stop(s: seq<byte>): (k: nat)
    ensures k <= |s|
    ensures forall i :: 0 <= i < k ==> s[i] >= 128
    ensures k < |s| ==> s[k] < 128
    decreases |s|
  {
    if s == [] || s[0] < 128 then 0 else 1 + Stop(s[1..])
  }

  datatype Varint = Varint(value: nat, size: nat) | Bad

  /** A varint ends within ten bytes; its value is kept modulo 2^64. */
  function LeadVarint(s: seq<byte>): (v: Varint)
    ensures v.Varint? ==> 0 < v.size <= |s| && v.size <= 10 && v.value < TWO64
  {
    var k := Stop(s);
    if k < |s| && k < 10 then Varint(Base128(s[..k + 1]) % TWO64, k + 1) else Bad
  }

  lemma StopIs(s: seq<byte>, k: nat)
    requires k <= |s| && (forall i :: 0 <= i < k ==> s[i] >= 128) && (k < |s| ==> s[k] < 128)
    ensures Stop(s) == k
  {
  }

  lemma {:induction false} Base128Last(s: seq<byte>, x: byte)
    ensures Base128(s + [x]) == Base128(s) + Pow128(|s|) * (x % 128)
    decreases |s|
  {
    if s == [] {
      assert (s + [x])[1..] == [];
    } else {
      assert (s + [x])[1..] == s[1..] + [x];
      Base128Last(s[1..], x);
      Spread(Base128(s[1..]), Pow128(|s| - 1), x % 128);
    }
  }

  lemma Spread(a: int, p: int, y: int)
    ensures 128 * (a + p * y) == 128 * a + (128 * p) * y
  {
  }

  lemma {:induction false} Base128Below(s: seq<byte>)
    ensures Base128(s) < Pow128(|s|)
    decreases |s|
  {
    if s != [] {
      Base128Below(s[1..]);
    }
  }

  lemma Wrapped(a: int, y: int)
    ensures (a % TWO64 + y) % TWO64 == (a + y) % TWO64
  {
  }

  lemma PowNine(i: nat)
    requires i <= 9
    ensures Pow128(i) < TWO64
  {
    assert Pow128(9) == 0x8000_0000_0000_0000 by {
      assert Pow128(3) == 0x20_0000;
      assert Pow128(6) == 0x400_0000_0000;
    }
    PowMono(i, 9);
  }

  lemma {:induction false} PowMono(i: nat, j: nat)
    requires i <= j
    ensures Pow128(i) <= Pow128(j)
    decreases j
  {
    if i < j {
      PowMono(i, j - 1);
    }
  }

  /** read_varint: 0 bytes consumed on error.  Below the tenth byte the result
      has no bits at or above the shift, so or-ing the next seven bits in is
      adding them. */
  method ReadVarint(b: seq<byte>) returns (n: nat, value: nat)
    ensures LeadVarint(b) == if n == 0 then Bad else Varint(value, n)
  {
    var result: nat := 0;
    var i: nat := 0;
    var scale: nat := 1;
    value := 0;
    while i < |b|
      invariant i <= |b| && i <= 10
      invariant forall k :: 0 <= k < i ==> b[k] >= 128
      invariant scale == Pow128(i)
      invariant result == Base128(b[..i]) % TWO64
      invariant i < 10 ==> result < scale
    {
      if i >= 10 {
        LongVarint(b);
        return 0, 0;
      }
      var x: int := b[i];
      VarintByte(b, i);
      result := (result + scale * (x % 128)) % TWO64;
      i := i + 1;
      if x < 128 {
        StopIs(b, i - 1);
        return i, result;
      }
      scale := 128 * scale;
      if i < 10 {
        SmallResult(b, i);
      }
    }
    StopIs(b, i);
    return 0, 0;
  }

  lemma LongVarint(b: seq<byte>)
    requires |b| >= 10 && forall k :: 0 <= k < 10 ==> b[k] >= 128
    ensures LeadVarint(b) == Bad
  {
    hide Base128;
  }

  lemma VarintByte(b: seq<byte>, i: nat)
    requires i < |b|
    ensures (Base128(b[..i]) % TWO64 + Pow128(i) * (b[i] % 128)) % TWO64 == Base128(b[..i + 1]) % TWO64
  {
    hide Base128, Pow128;
    assert b[..i + 1] == b[..i] + [b[i]];
    Base128Last(b[..i], b[i]);
    Wrapped(Base128(b[..i]), Pow128(i) * (b[i] % 128));
  }

  lemma SmallResult(b: seq<byte>, i: nat)
    requires i <= |b| && i <= 9
    ensures Base128(b[..i]) % TWO64 < Pow128(i)
  {
    Base128Below(b[..i]);
    PowNine(i);
    hide Base128, Pow128;
  }

  /** Base-128 encoding. */
  function Encode(v: nat): (s: seq<byte>)
    ensures |s| > 0
  {
    if v < 128 then [v] else [128 + v % 128] + Encode(v / 128)
  }

  lemma {:induction false} EncodeStops(v: nat)
    ensures Stop(Encode(v)) == |Encode(v)| - 1
  {
    if v >= 128 {
      EncodeStops(v / 128);
      assert Encode(v)[1..] == Encode(v / 128);
    }
  }

  lemma {:induction false} EncodeValue(v: nat)
    ensures Base128(Encode(v)) == v
  {
    if v < 128 {
      assert Encode(v)[1..] == [];
    } else {
      EncodeValue(v / 128);
      assert Encode(v)[1..] == Encode(v / 128);
    }
  }

  lemma {:induction false} EncodeLength(v: nat, n: nat)
    requires n >= 1 && v < Pow128(n)
    ensures |Encode(v)| <= n
  {
    if v >= 128 {
      assert n >= 2 by { assert Pow128(1) == 128 * Pow128(0); }
      EncodeLength(v / 128, n - 1);
    }
  }

  lemma SixtyFourBits(v: nat)
    requires v < TWO64
    ensures |Encode(v)| <= 10
  {
    assert Pow128(10) >= TWO64 by {
      assert Pow128(3) == 0x20_0000;
      assert Pow128(6) == 0x400_0000_0000;
      assert Pow128(9) == 0x8000_0000_0000_0000;
    }
    EncodeLength(v, 10);
  }

  /** What follows a complete varint does not matter. */
  lemma {:induction false} StopPrefix(a: seq<byte>, b: seq<byte>)
    requires Stop(a) < |a|
    ensures Stop(a + b) == Stop(a)
  {
    StopIs(a + b, Stop(a));
  }

  lemma VarintPrefix(a: seq<byte>, b: seq<byte>)
    requires LeadVarint(a).Varint?
    ensures LeadVarint(a + b) == LeadVarint(a)
  {
    hide Base128;
    StopPrefix(a, b);
    assert (a + b)[..Stop(a) + 1] == a[..Stop(a) + 1];
  }

  /** read_varint inverts base-128 encoding on every 64-bit value, whatever
      follows. */
  lemma VarintInverts(v: nat, rest: seq<byte>)
    requires v < TWO64
    ensures LeadVarint(Encode(v) + rest) == Varint(v, |Encode(v)|)
  {
    EncodeStops(v);
    EncodeValue(v);
    SixtyFourBits(v);
    assert Encode(v)[..|Encode(v)|] == Encode(v);
    hide Base128, Encode;
    VarintPrefix(Encode(v), rest);
  }

  // ------------------------------------------------------------------- fields

  datatype Field = Field(number: nat, wire: nat, value: nat, body: seq<byte>, size: nat)

  /** The value of a field of the given wire type and its size. */
  function FieldValue(number: nat, wire: nat, s: seq<byte>): (f: Option<Field>)
    ensures f.Some? ==> 0 < f.value.size <= |s|
  {
    match wire
    case 0 =>
      var v := LeadVarint(s);
      if v.Bad? then None else Some(Field(number, 0, v.value, [], v.size))
    case 1 => if |s| < 8 then None else Some(Field(number, 1, 0, s[..8], 8))
    case 2 =>
      var v := LeadVarint(s);
      if v.Bad? || v.value > |s| - v.size then None
      else Some(Field(number, 2, 0, s[v.size..v.size + v.value], v.size + v.value))
    case 5 => if |s| < 4 then None else Some(Field(number, 5, 0, s[..4], 4))
    case _ => None
  }

  /** A key and its value; the field number is cut to 32 bits. */
  function LeadField(s: seq<byte>): (f: Option<Field>)
    ensures f.Some? ==> 0 < f.value.size <= |s|
  {
    var key := LeadVarint(s);
    if key.Bad? then None else
    var f := FieldValue(key.value / 8 % TWO32, key.value % 8, s[key.size..]);
    if f.None? then None else Some(f.value.(size := key.size + f.value.size))
  }

  /** The fields of a message. */
  function Fields(s: seq<byte>): Option<seq<Field>>
    decreases |s|
  {
    if s == [] then Some([]) else
    var f := LeadField(s);
    if f.None? then None else
    var rest := Fields(s[f.value.size..]);
    if rest.None? then None else Some([f.value] + rest.value)
  }

  lemma FieldValuePrefix(number: nat, wire: nat, a: seq<byte>, b: seq<byte>)
    requires FieldValue(number, wire, a).Some?
    ensures FieldValue(number, wire, a + b) == FieldValue(number, wire, a)
  {
    hide LeadVarint;
    if wire == 0 || wire == 2 {
      VarintPrefix(a, b);
      if wire == 2 {
        var v := LeadVarint(a);
        assert (a + b)[v.size..v.size + v.value] == a[v.size..v.size + v.value];
      }
    } else if wire == 1 {
      assert (a + b)[..8] == a[..8];
    } else {
      assert (a + b)[..4] == a[..4];
    }
  }

  lemma FieldPrefix(a: seq<byte>, b: seq<byte>)
    requires LeadField(a).Some?
    ensures LeadField(a + b) == LeadField(a)
  {
    hide LeadVarint, FieldValue;
    VarintPrefix(a, b);
    var key := LeadVarint(a);
    assert (a + b)[key.size..] == a[key.size..] + b;
    FieldValuePrefix(key.value / 8 % TWO32, key.value % 8, a[key.size..], b);
  }

  lemma NoFields()
    ensures Fields([]) == Some([])
  {
  }

  lemma Joined(a: seq<Field>, b: seq<Field>)
    ensures a == [] ==> a + b == b
    ensures b == [] ==> a + b == a
  {
  }

  /** The fields of a concatenation. */
  lemma {:induction false} FieldsConcat(a: seq<byte>, b: seq<byte>)
    requires Fields(a).Some?
    ensures Fields(a + b).Some? <==> Fields(b).Some?
    ensures Fields(b).Some? ==> Fields(a + b) == Some(Fields(a).value + Fields(b).value)
    decreases |a|
  {
    hide LeadField, Fields;
    if a == [] {
      assert a + b == b;
      NoFields();
      if Fields(b).Some? {
        Joined([], Fields(b).value);
      }
    } else {
      FirstField(a);
      FirstField(a + b);
      FieldPrefix(a, b);
      var f := LeadField(a).value;
      assert (a + b)[f.size..] == a[f.size..] + b;
      FieldsConcat(a[f.size..], b);
      if Fields(b).Some? {
        assert [f] + (Fields(a[f.size..]).value + Fields(b).value) == [f] + Fields(a[f.size..]).value + Fields(b).value;
      }
    }
  }

  lemma FirstField(s: seq<byte>)
    requires s != []
    ensures Fields(s).Some? <==> LeadField(s).Some? && Fields(s[LeadField(s).value.size..]).Some?
    ensures Fields(s).Some? ==> Fields(s).value == [LeadField(s).value] + Fields(s[LeadField(s).value.size..]).value
  {
    hide LeadField;
  }

  /** The value of the last varint field with this number, 0 without one. */
  function LastValue(fs: seq<Field>, number: nat): nat
    decreases |fs|
  {
    if fs == [] then 0
    else if fs[|fs| - 1].wire == 0 && fs[|fs| - 1].number == number then fs[|fs| - 1].value
    else LastValue(fs[..|fs| - 1], number)
  }

  // ----------------------------------------------------------------- snapshot

  datatype Counters = Counters(rxOctets: nat, rxPackets: nat, txOctets: nat, txPackets: nat)

  /** struct port_counters; a blank slot is all zeros. */
  datatype Slot = Slot(port: nat, present: bool, counters: Counters)

  const BLANK: Slot := Slot(0, false, Counters(0, 0, 0, 0))

  datatype Record = Record(port: nat, counters: Counters)

  /** What a per-port message says; a port number above the maximum reads as 0. */
  function RecordOf(fs: seq<Field>): Record {
    var port := LastValue(fs, 1);
    Record(if port > MAX_PORTS then 0 else port,
           Counters(LastValue(fs, 3), LastValue(fs, 4), LastValue(fs, 13), LastValue(fs, 14)))
  }

  datatype State = State(timestamp: nat, slots: seq<Slot>)

  function Zero(): State { State(0, seq(MAX_PORTS, _ => BLANK)) }

  function Store(slots: seq<Slot>, r: Record): (after: seq<Slot>)
    ensures |after| == |slots|
  {
    if 0 < r.port <= |slots| then slots[r.port - 1 := Slot(r.port, true, r.counters)] else slots
  }

  predicate IsRecord(f: Field) { f.number == 3 && f.wire == 2 }

  predicate IsTimestamp(f: Field) { f.number == 2 && f.wire == 0 }

  /** A port record whose message can be read, or any other field. */
  predicate Sound(f: Field) {
    IsRecord(f) ==> Fields(f.body).Some?
  }

  /** One top-level field. */
  function Next(st: State, f: Field): State
    requires Sound(f)
  {
    if IsTimestamp(f) then st.(timestamp := f.value)
    else if IsRecord(f) then st.(slots := Store(st.slots, RecordOf(Fields(f.body).value)))
    else st
  }

  predicate Readable(fs: seq<Field>) {
    forall i :: 0 <= i < |fs| ==> Sound(fs[i])
  }

  function Run(st: State, fs: seq<Field>): (after: State)
    requires Readable(fs)
    decreases |fs|
  {
    if fs == [] then st else Run(Next(st, fs[0]), fs[1..])
  }

  predicate WellFormed(s: seq<byte>) {
    Fields(s).Some? && Readable(Fields(s).value)
  }

  /** A well-formed message read into a snapshot. */
  function Read(st: State, s: seq<byte>): State
    requires WellFormed(s)
  {
    Run(st, Fields(s).value)
  }

  lemma {:induction false} RunConcat(st: State, a: seq<Field>, b: seq<Field>)
    requires Readable(a) && Readable(b)
    ensures Readable(a + b) && Run(st, a + b) == Run(Run(st, a), b)
    decreases |a|
  {
    hide Fields, Next;
    if a == [] {
      assert a + b == b;
    } else {
      assert (a + b)[1..] == a[1..] + b && (a + b)[0] == a[0];
      RunConcat(Next(st, a[0]), a[1..], b);
    }
  }

  lemma ReadableConcat(a: seq<Field>, b: seq<Field>)
    ensures Readable(a + b) <==> Readable(a) && Readable(b)
  {
    hide Sound;
    if Readable(a + b) {
      forall i | 0 <= i < |a| ensures Sound(a[i]) {
        assert a[i] == (a + b)[i];
      }
      forall i | 0 <= i < |b| ensures Sound(b[i]) {
        assert b[i] == (a + b)[|a| + i];
      }
    }
  }

  /** A message after a well-formed one is read from where that one left off. */
  lemma ReadConcat(st: State, a: seq<byte>, b: seq<byte>)
    requires WellFormed(a)
    ensures WellFormed(a + b) <==> WellFormed(b)
    ensures WellFormed(b) ==> Read(st, a + b) == Read(Read(st, a), b)
  {
    FieldsConcat(a, b);
    hide Fields, Run, Readable;
    if Fields(b).Some? {
      ReadableConcat(Fields(a).value, Fields(b).value);
      if Readable(Fields(b).value) {
        RunConcat(st, Fields(a).value, Fields(b).value);
      }
    }
  }

  // ------------------------------------------------------ the last record wins

  /** The last record of a port among the fields. */
  function LastRecord(fs: seq<Field>, port: nat): Option<Counters>
    requires Readable(fs)
    decreases |fs|
  {
    if fs == [] then None else
    var f := fs[|fs| - 1];
    if IsRecord(f) && RecordOf(Fields(f.body).value).port == port then Some(RecordOf(Fields(f.body).value).counters)
    else LastRecord(fs[..|fs| - 1], port)
  }

  /** Each port's slot is its last record whole, or as before when it has none. */
  lemma {:induction false} LastRecordWins(st: State, fs: seq<Field>, port: nat)
    requires Readable(fs) && |st.slots| == MAX_PORTS && 0 < port <= MAX_PORTS
    ensures var after := Run(st, fs).slots;
            && |after| == MAX_PORTS
            && after[port - 1] == match LastRecord(fs, port)
                                  case Some(c) => Slot(port, true, c)
                                  case None => st.slots[port - 1]
    decreases |fs|
  {
    hide Fields, RecordOf;
    if fs != [] {
      var init, last := fs[..|fs| - 1], fs[|fs| - 1];
      LastRecordWins(st, init, port);
      assert fs == init + [last];
      RunConcat(st, init, [last]);
      assert [last][1..] == [];
      assert Run(Run(st, init), [last]) == Next(Run(st, init), last);
    }
  }

  /** The number of present slots. */
  function Present(slots: seq<Slot>): (n: nat)
    ensures n <= |slots|
    decreases |slots|
  {
    if slots == [] then 0 else Present(slots[..|slots| - 1]) + (if slots[|slots| - 1].present then 1 else 0)
  }

  lemma {:induction false} PresentUpdate(slots: seq<Slot>, i: nat, x: Slot)
    requires i < |slots| && x.present
    ensures Present(slots[i := x]) == Present(slots) + if slots[i].present then 0 else 1
    decreases |slots|
  {
    var n := |slots| - 1;
    if i == n {
      assert slots[i := x][..n] == slots[..n];
    } else {
      assert slots[i := x][..n] == slots[..n][i := x];
      PresentUpdate(slots[..n], i, x);
    }
  }

  lemma {:induction false} PresentBlank(slots: seq<Slot>)
    requires forall i :: 0 <= i < |slots| ==> slots[i] == BLANK
    ensures Present(slots) == 0
    decreases |slots|
  {
    if slots != [] {
      PresentBlank(slots[..|slots| - 1]);
    }
  }

  // ------------------------------------------------------------ the decoder

  /** skip_value: 0 bytes consumed on error. */
  method SkipValue(b: seq<byte>, wire: nat, ghost number: nat) returns (n: nat)
    ensures n == 0 <==> FieldValue(number, wire, b).None?
    ensures n > 0 ==> FieldValue(number, wire, b).value.size == n
  {
    hide LeadVarint;
    var v: nat;
    if wire == 0 {
      n, v := ReadVarint(b);
    } else if wire == 1 {
      n := if |b| >= 8 then 8 else 0;
    } else if wire == 2 {
      n, v := ReadVarint(b);
      if n == 0 || v > |b| - n {
        return 0;
      }
      n := n + v;
    } else if wire == 5 {
      n := if |b| >= 4 then 4 else 0;
    } else {
      n := 0;
    }
  }

  /** The key at the front of a field. */
  method ReadKey(b: seq<byte>) returns (n: nat, number: nat, wire: nat)
    ensures n == 0 ==> LeadField(b).None?
    ensures n > 0 ==> n <= |b| && wire < 8
    ensures n > 0 ==> LeadField(b) == match FieldValue(number, wire, b[n..])
                                      case None => None
                                      case Some(f) => Some(f.(size := n + f.size))
  {
    hide LeadVarint, FieldValue;
    var key: nat;
    n, key := ReadVarint(b);
    if n == 0 {
      return 0, 0, 0;
    }
    number, wire := key / 8 % TWO32, key % 8;
  }

  /** Progress through the fields of `s`: `done` have been read and the rest
      starts at i. */
  ghost predicate ReadUpTo(s: seq<byte>, i: nat, done: seq<Field>) {
    && i <= |s|
    && (Fields(s).Some? <==> Fields(s[i..]).Some?)
    && (Fields(s).Some? ==> Fields(s).value == done + Fields(s[i..]).value)
  }

  lemma ReadOn(s: seq<byte>, i: nat, done: seq<Field>)
    requires ReadUpTo(s, i, done) && i < |s|
    ensures LeadField(s[i..]).None? ==> Fields(s).None?
    ensures LeadField(s[i..]).Some? ==> ReadUpTo(s, i + LeadField(s[i..]).value.size, done + [LeadField(s[i..]).value])
  {
    hide LeadField;
    var f := LeadField(s[i..]);
    if f.Some? {
      assert s[i..][f.value.size..] == s[i + f.value.size..];
      if Fields(s).Some? {
        assert done + ([f.value] + Fields(s[i + f.value.size..]).value) == done + [f.value]
               + Fields(s[i + f.value.size..]).value;
      }
    }
  }

  lemma ReadStart(s: seq<byte>)
    ensures ReadUpTo(s, 0, [])
  {
    hide Fields;
    assert s[0..] == s;
    if Fields(s).Some? {
      assert [] + Fields(s).value == Fields(s).value;
    }
  }

  lemma ReadAll(s: seq<byte>, done: seq<Field>)
    requires ReadUpTo(s, |s|, done)
    ensures Fields(s) == Some(done)
  {
    hide Fields;
    assert s[|s|..] == [];
    NoFields();
    Joined(done, []);
  }

  /** A field that has just been read is the next of `done`. */
  lemma ReadField(s: seq<byte>, i: nat, n: nat, number: nat, wire: nat, done: seq<Field>)
    requires ReadUpTo(s, i, done) && i < |s| && i + n <= |s|
    requires LeadField(s[i..]) == match FieldValue(number, wire, s[i + n..])
                                  case None => None
                                  case Some(f) => Some(f.(size := n + f.size))
    ensures FieldValue(number, wire, s[i + n..]).None? ==> Fields(s).None?
    ensures FieldValue(number, wire, s[i + n..]).Some? ==>
              var f := FieldValue(number, wire, s[i + n..]).value;
              ReadUpTo(s, i + n + f.size, done + [f.(size := n + f.size)])
  {
    hide LeadField, FieldValue, ReadUpTo;
    ReadOn(s, i, done);
  }

  lemma LastValueNext(done: seq<Field>, f: Field, number: nat)
    ensures LastValue(done + [f], number) == if f.wire == 0 && f.number == number then f.value
            else LastValue(done, number)
  {
    assert (done + [f])[..|done + [f]| - 1] == done;
  }

  /** The five counters of a message so far. */
  predicate Gathered(done: seq<Field>, port: nat, rxo: nat, rxp: nat, txo: nat, txp: nat) {
    && port == (if LastValue(done, 1) > MAX_PORTS then 0 else LastValue(done, 1))
    && rxo == LastValue(done, 3) && rxp == LastValue(done, 4)
    && txo == LastValue(done, 13) && txp == LastValue(done, 14)
  }

  lemma GatherVarint(done: seq<Field>, f: Field, port: nat, rxo: nat, rxp: nat, txo: nat, txp: nat)
    requires Gathered(done, port, rxo, rxp, txo, txp)
    ensures f.wire != 0 ==> Gathered(done + [f], port, rxo, rxp, txo, txp)
    ensures f.wire == 0 ==>
              var number, v := f.number, f.value;
              Gathered(done + [f], if number == 1 then (if v > MAX_PORTS then 0 else v) else port,
                       if number == 3 then v else rxo, if number == 4 then v else rxp,
                       if number == 13 then v else txo, if number == 14 then v else txp)
  {
    hide LastValue;
    LastValueNext(done, f, 1);
    LastValueNext(done, f, 3);
    LastValueNext(done, f, 4);
    LastValueNext(done, f, 13);
    LastValueNext(done, f, 14);
  }

  /** The parsing loop of parse_port_submsg. */
  method ParseRecord(b: seq<byte>) returns (ok: bool, r: Record)
    ensures ok <==> Fields(b).Some?
    ensures ok ==> r == RecordOf(Fields(b).value)
  {
    hide Fields, LeadField, FieldValue, ReadUpTo, Gathered, LastValue;
    var port: nat, rxo: nat, rxp: nat, txo: nat, txp: nat := 0, 0, 0, 0, 0;
    var i: nat := 0;
    ghost var done: seq<Field> := [];
    ReadStart(b);
    GatheredNone();
    while i < |b|
      invariant i <= |b| && ReadUpTo(b, i, done) && Gathered(done, port, rxo, rxp, txo, txp)
    {
      var n, number, wire := ReadKey(b[i..]);
      if n == 0 {
        ReadOn(b, i, done);
        return false, Record(0, Counters(0, 0, 0, 0));
      }
      assert b[i..][n..] == b[i + n..];
      ReadField(b, i, n, number, wire, done);
      ghost var f := FieldValue(number, wire, b[i + n..]);
      i := i + n;
      if wire == 0 {
        var m, v := ReadVarint(b[i..]);
        VarintField(number, b[i..]);
        if m == 0 {
          return false, Record(0, Counters(0, 0, 0, 0));
        }
        GatherVarint(done, f.value.(size := n + f.value.size), port, rxo, rxp, txo, txp);
        match number {
          case 1 => port := if v > MAX_PORTS then 0 else v;
          case 3 => rxo := v;
          case 4 => rxp := v;
          case 13 => txo := v;
          case 14 => txp := v;
          case _ =>
        }
        i := i + m;
      } else {
        var m := SkipValue(b[i..], wire, number);
        if m == 0 {
          return false, Record(0, Counters(0, 0, 0, 0));
        }
        FieldWire(number, wire, b[i..]);
        GatherVarint(done, f.value.(size := n + f.value.size), port, rxo, rxp, txo, txp);
        i := i + m;
      }
      done := done + [f.value.(size := n + f.value.size)];
    }
    ReadAll(b, done);
    GatheredAll(done, port, rxo, rxp, txo, txp);
    return true, Record(port, Counters(rxo, rxp, txo, txp));
  }

  lemma GatheredNone()
    ensures Gathered([], 0, 0, 0, 0, 0)
  {
  }

  lemma GatheredAll(done: seq<Field>, port: nat, rxo: nat, rxp: nat, txo: nat, txp: nat)
    requires Gathered(done, port, rxo, rxp, txo, txp)
    ensures RecordOf(done) == Record(port, Counters(rxo, rxp, txo, txp))
  {
  }

  lemma VarintField(number: nat, s: seq<byte>)
    ensures FieldValue(number, 0, s) == match LeadVarint(s)
                                        case Bad => None
                                        case Varint(v, n) => Some(Field(number, 0, v, [], n))
  {
    hide LeadVarint;
  }

  lemma FieldWire(number: nat, wire: nat, s: seq<byte>)
    requires FieldValue(number, wire, s).Some?
    ensures var f := FieldValue(number, wire, s).value; f.wire == wire && f.number == number
  {
    hide LeadVarint;
  }

  /** struct portstats_snapshot. */
  class Snapshot {
    var timestamp: nat
    var count: nat
    var valid: bool
    const slots: array<Slot>

    constructor ()
      ensures fresh(slots) && slots.Length == MAX_PORTS
    {
      slots := new Slot[MAX_PORTS](_ => BLANK);
      timestamp, count, valid := 0, 0, false;
    }

    ghost function Contents(): State
      reads this, slots
    {
      State(timestamp, slots[..])
    }

    /** The count is the number of ports present. */
    ghost predicate Valid()
      reads this, slots
    {
      slots.Length == MAX_PORTS && count == Present(slots[..])
    }

    /** memset to zero. */
    method Clear()
      requires slots.Length == MAX_PORTS
      modifies this, slots
      ensures Valid() && Contents() == Zero() && !valid && count == 0
    {
      forall i | 0 <= i < slots.Length {
        slots[i] := BLANK;
      }
      timestamp, count, valid := 0, 0, false;
      PresentBlank(slots[..]);
      assert slots[..] == Zero().slots;
    }

    /** store_port: a first record of a port raises the count, a later one
        replaces the counters whole. */
    method StorePort(r: Record)
      requires Valid()
      modifies this, slots
      ensures Valid() && Contents() == old(Contents()).(slots := Store(old(Contents()).slots, r)) && valid == old(valid)
    {
      hide Present;
      if r.port == 0 || r.port > MAX_PORTS {
        return;
      }
      PresentUpdate(slots[..], r.port - 1, Slot(r.port, true, r.counters));
      if !slots[r.port - 1].present {
        count := count + 1;
      }
      slots[r.port - 1] := Slot(r.port, true, r.counters);
      assert slots[..] == old(slots[..])[r.port - 1 := Slot(r.port, true, r.counters)];
    }

    /** One field of the top level: its size, or 0 when it is malformed. */
    method DecodeField(b: seq<byte>) returns (size: nat)
      requires Valid() && b != []
      modifies this, slots
      ensures Valid() && valid == old(valid)
      ensures size == 0 <==> LeadField(b).None? || !Sound(LeadField(b).value)
      ensures size > 0 ==> size == LeadField(b).value.size && Contents() == Next(old(Contents()), LeadField(b).value)
    {
      hide Fields, LeadField, FieldValue, RecordOf, Present, Store;
      var n, number, wire := ReadKey(b);
      if n == 0 {
        return 0;
      }
      var rest := b[n..];
      if number == 2 && wire == 0 {
        var m, v := ReadVarint(rest);
        VarintField(number, rest);
        if m == 0 {
          return 0;
        }
        timestamp := v;
        return n + m;
      }
      if number == 3 && wire == 2 {
        var m, length := ReadVarint(rest);
        LengthField(number, rest);
        if m == 0 || length > |rest| - m {
          return 0;
        }
        var ok, r := ParseRecord(rest[m..m + length]);
        if !ok {
          return 0;
        }
        StorePort(r);
        return n + m + length;
      }
      var m := SkipValue(rest, wire, number);
      if m == 0 {
        return 0;
      }
      FieldWire(number, wire, rest);
      return n + m;
    }

    /** portstats_decode: the message read into zeroed slots, or everything
        zero. */
    method Decode(buf: seq<byte>) returns (rc: int)
      requires slots.Length == MAX_PORTS
      modifies this, slots
      ensures Valid()
      ensures rc == 0 <==> buf != [] && WellFormed(buf)
      ensures rc == 0 ==> valid && Contents() == Read(Zero(), buf)
      ensures rc != 0 ==> rc == -1 && !valid && count == 0 && Contents() == Zero()
    {
      hide Fields, LeadField, Next, Run, Present, Readable, ReadUpTo, Sound;
      Clear();
      if buf == [] {
        return -1;
      }
      var i: nat := 0;
      ghost var done: seq<Field> := [];
      ReadStart(buf);
      RunNone(Zero());
      while i < |buf|
        invariant i <= |buf| && ReadUpTo(buf, i, done)
        invariant Valid() && Readable(done) && Contents() == Run(Zero(), done)
      {
        ghost var st := Contents();
        var n := DecodeField(buf[i..]);
        ReadOn(buf, i, done);
        if n == 0 {
          Unreadable(buf, i, done);
          Clear();
          return -1;
        }
        ghost var f := LeadField(buf[i..]).value;
        RunNext(Zero(), done, f);
        done := done + [f];
        i := i + n;
      }
      ReadAll(buf, done);
      valid := true;
      rc := 0;
    }
  }

  lemma LengthField(number: nat, s: seq<byte>)
    ensures FieldValue(number, 2, s) == match LeadVarint(s)
                                        case Bad => None
                                        case Varint(v, n) => if v > |s| - n then None
                                                             else Some(Field(number, 2, 0, s[n..n + v], n + v))
  {
    hide LeadVarint;
  }

  lemma OneReadable(f: Field)
    ensures Readable([f]) <==> Sound(f)
  {
    hide Sound;
    assert [f][0] == f;
  }

  lemma RunNone(st: State)
    ensures Readable([]) && Run(st, []) == st
  {
  }

  lemma RunNext(st: State, done: seq<Field>, f: Field)
    requires Readable(done) && Sound(f)
    ensures Readable(done + [f]) && Run(st, done + [f]) == Next(Run(st, done), f)
  {
    hide Sound, Next;
    OneReadable(f);
    RunConcat(st, done, [f]);
    assert [f][1..] == [];
  }

  /** One unreadable field makes the message ill formed. */
  lemma Unreadable(s: seq<byte>, i: nat, done: seq<Field>)
    requires ReadUpTo(s, i, done) && i < |s|
    requires LeadField(s[i..]).None? || !Sound(LeadField(s[i..]).value)
    ensures !WellFormed(s)
  {
    hide LeadField, Readable;
    if Fields(s).Some? {
      var f := LeadField(s[i..]).value;
      var rest := Fields(s[i..][f.size..]).value;
      assert Fields(s).value == done + ([f] + rest);
      ReadableConcat(done, [f] + rest);
      ReadableConcat([f], rest);
      OneReadable(f);
    }
  }

  // -------------------------------------------------------------- round trip

  /** A varint field as protobuf writes it. */
  function VarField(number: nat, v: nat): seq<byte> { Encode(8 * number) + Encode(v) }

  function RecordBytes(r: Record): seq<byte> {
    VarField(1, r.port) + (VarField(3, r.counters.rxOctets) + (VarField(4, r.counters.rxPackets)
      + (VarField(13, r.counters.txOctets) + VarField(14, r.counters.txPackets))))
  }

  function RecordField(r: Record): seq<byte> {
    Encode(8 * 3 + 2) + (Encode(|RecordBytes(r)|) + RecordBytes(r))
  }

  /** A snapshot message with these port records. */
  function Message(rs: seq<Record>): seq<byte>
    decreases |rs|
  {
    if rs == [] then [] else RecordField(rs[0]) + Message(rs[1..])
  }

  /** A record that fits the wire and names a port of the switch. */
  predicate Sendable(r: Record) {
    && 0 < r.port <= MAX_PORTS
    && r.counters.rxOctets < TWO64 && r.counters.rxPackets < TWO64
    && r.counters.txOctets < TWO64 && r.counters.txPackets < TWO64
  }

  function StoreAll(slots: seq<Slot>, rs: seq<Record>): (after: seq<Slot>)
    ensures |after| == |slots|
    decreases |rs|
  {
    if rs == [] then slots else StoreAll(Store(slots, rs[0]), rs[1..])
  }

  /** A key and a value encoded one after the other. */
  lemma KeyField(number: nat, wire: nat, s: seq<byte>)
    requires number < 16 && wire < 8
    ensures LeadField(Encode(8 * number + wire) + s) ==
      match FieldValue(number, wire, s)
      case None => None
      case Some(f) => Some(f.(size := |Encode(8 * number + wire)| + f.size))
  {
    hide Encode, LeadVarint, FieldValue;
    var key := Encode(8 * number + wire);
    VarintInverts(8 * number + wire, s);
    assert (key + s)[|key|..] == s;
  }

  lemma VarFieldLead(number: nat, v: nat, rest: seq<byte>)
    requires number < 16 && v < TWO64
    ensures LeadField(VarField(number, v) + rest) == Some(Field(number, 0, v, [], |VarField(number, v)|))
  {
    hide Encode, LeadVarint, FieldValue, LeadField;
    assert VarField(number, v) + rest == Encode(8 * number + 0) + (Encode(v) + rest);
    KeyField(number, 0, Encode(v) + rest);
    VarintInverts(v, rest);
    VarintField(number, Encode(v) + rest);
  }

  lemma VarFieldsThen(number: nat, v: nat, rest: seq<byte>)
    requires number < 16 && v < TWO64 && Fields(rest).Some?
    ensures Fields(VarField(number, v) + rest) == Some([Field(number, 0, v, [], |VarField(number, v)|)]
                                                       + Fields(rest).value)
  {
    hide VarField, LeadField, Fields;
    var s := VarField(number, v) + rest;
    VarFieldLead(number, v, rest);
    assert s[|VarField(number, v)|..] == rest;
    NonEmpty(s);
    FirstField(s);
  }

  lemma NonEmpty(s: seq<byte>)
    requires LeadField(s).Some?
    ensures s != []
  {
  }

  function VarSize(number: nat, v: nat): nat { |VarField(number, v)| }

  lemma RecordFields(r: Record)
    requires Sendable(r)
    ensures Fields(RecordBytes(r)) == Some(
              [Field(1, 0, r.port, [], VarSize(1, r.port)),
               Field(3, 0, r.counters.rxOctets, [], VarSize(3, r.counters.rxOctets)),
               Field(4, 0, r.counters.rxPackets, [], VarSize(4, r.counters.rxPackets)),
               Field(13, 0, r.counters.txOctets, [], VarSize(13, r.counters.txOctets)),
               Field(14, 0, r.counters.txPackets, [], VarSize(14, r.counters.txPackets))])
  {
    hide VarField, Fields;
    var c := r.counters;
    var f1 := Field(1, 0, r.port, [], VarSize(1, r.port));
    var f3 := Field(3, 0, c.rxOctets, [], VarSize(3, c.rxOctets));
    var f4 := Field(4, 0, c.rxPackets, [], VarSize(4, c.rxPackets));
    var f13 := Field(13, 0, c.txOctets, [], VarSize(13, c.txOctets));
    var f14 := Field(14, 0, c.txPackets, [], VarSize(14, c.txPackets));
    NoFields();
    VarFieldsThen(14, c.txPackets, []);
    var e := VarField(14, c.txPackets);
    assert e + [] == e && [f14] + [] == [f14];
    VarFieldsThen(13, c.txOctets, e);
    var d := VarField(13, c.txOctets) + e;
    assert [f13] + [f14] == [f13, f14];
    VarFieldsThen(4, c.rxPackets, d);
    var b := VarField(4, c.rxPackets) + d;
    assert [f4] + [f13, f14] == [f4, f13, f14];
    VarFieldsThen(3, c.rxOctets, b);
    assert [f3] + [f4, f13, f14] == [f3, f4, f13, f14];
    VarFieldsThen(1, r.port, VarField(3, c.rxOctets) + b);
    assert [f1] + [f3, f4, f13, f14] == [f1, f3, f4, f13, f14];
  }

  lemma RecordReads(r: Record)
    requires Sendable(r)
    ensures Fields(RecordBytes(r)).Some? && RecordOf(Fields(RecordBytes(r)).value) == r
  {
    hide VarSize, RecordBytes, Fields, LastValue;
    RecordFields(r);
    FiveFields(r.port, r.counters, VarSize(1, r.port), VarSize(3, r.counters.rxOctets),
               VarSize(4, r.counters.rxPackets),
               VarSize(13, r.counters.txOctets), VarSize(14, r.counters.txPackets));
  }

  lemma FiveFields(port: nat, c: Counters, i: nat, j: nat, k: nat, m: nat, n: nat)
    requires port <= MAX_PORTS
    ensures RecordOf([Field(1, 0, port, [], i), Field(3, 0, c.rxOctets, [], j), Field(4, 0, c.rxPackets, [], k),
                      Field(13, 0, c.txOctets, [], m), Field(14, 0, c.txPackets, [], n)]) == Record(port, c)
  {
    var a, b, d := Field(1, 0, port, [], i), Field(3, 0, c.rxOctets, [], j), Field(4, 0, c.rxPackets, [], k);
    var e, f := Field(13, 0, c.txOctets, [], m), Field(14, 0, c.txPackets, [], n);
    hide LastValue;
    forall number: nat
      ensures LastValue([a, b, d, e, f], number) ==
        if number == 14 then f.value else if number == 13 then e.value else if number == 4 then d.value
        else if number == 3 then b.value else if number == 1 then a.value else 0
    {
      assert [a] == [] + [a] && [a, b] == [a] + [b] && [a, b, d] == [a, b] + [d];
      assert [a, b, d, e] == [a, b, d] + [e] && [a, b, d, e, f] == [a, b, d, e] + [f];
      LastValueNext([], a, number);
      LastValueNext([a], b, number);
      LastValueNext([a, b], d, number);
      LastValueNext([a, b, d], e, number);
      LastValueNext([a, b, d, e], f, number);
      NoValue(number);
    }
  }

  lemma NoValue(number: nat)
    ensures LastValue([], number) == 0
  {
  }

  lemma RecordLead(r: Record, rest: seq<byte>)
    requires |RecordBytes(r)| < TWO64
    ensures LeadField(RecordField(r) + rest) == Some(Field(3, 2, 0, RecordBytes(r), |RecordField(r)|))
  {
    hide Encode, LeadVarint, FieldValue, LeadField, RecordBytes;
    var body := RecordBytes(r);
    var size := Encode(|body|);
    assert RecordField(r) + rest == Encode(8 * 3 + 2) + (size + (body + rest));
    KeyField(3, 2, size + (body + rest));
    VarintInverts(|body|, body + rest);
    LengthField(3, size + (body + rest));
    assert (size + (body + rest))[|size|..|size| + |body|] == body;
  }

  lemma RecordShort(r: Record)
    requires Sendable(r)
    ensures |RecordBytes(r)| <= 100
  {
    hide Encode;
    SixtyFourBits(8);
    SixtyFourBits(24);
    SixtyFourBits(32);
    SixtyFourBits(104);
    SixtyFourBits(112);
    SixtyFourBits(r.port);
    SixtyFourBits(r.counters.rxOctets);
    SixtyFourBits(r.counters.rxPackets);
    SixtyFourBits(r.counters.txOctets);
    SixtyFourBits(r.counters.txPackets);
  }

  lemma RecordMessage(st: State, r: Record)
    requires Sendable(r)
    ensures WellFormed(RecordField(r)) && Read(st, RecordField(r)) == st.(slots := Store(st.slots, r))
  {
    hide RecordBytes, RecordField, Fields, LeadField, RecordOf, Store;
    var s := RecordField(r);
    RecordShort(r);
    RecordLead(r, []);
    assert s + [] == s;
    NonEmpty(s);
    FirstField(s);
    NoFields();
    var f := LeadField(s).value;
    assert s[f.size..] == [];
    assert Fields(s).value == [f];
    RecordReads(r);
    OneReadable(f);
    RunNone(st);
    RunNext(st, [], f);
    assert [] + [f] == [f];
    assert Read(st, s) == Next(st, f);
  }

  /** Every message of sendable records is well formed, and reading it stores
      the records in order. */
  lemma {:induction false} MessageReads(st: State, rs: seq<Record>)
    requires forall i :: 0 <= i < |rs| ==> Sendable(rs[i])
    ensures WellFormed(Message(rs)) && Read(st, Message(rs)) == st.(slots := StoreAll(st.slots, rs))
    decreases |rs|
  {
    hide WellFormed, Read, RecordField, Sendable, Store;
    if rs == [] {
      ReadNothing(st);
    } else {
      RecordMessage(st, rs[0]);
      MessageReads(Read(st, RecordField(rs[0])), rs[1..]);
      ReadConcat(st, RecordField(rs[0]), Message(rs[1..]));
    }
  }

  lemma ReadNothing(st: State)
    ensures WellFormed([]) && Read(st, []) == st
  {
  }
}
