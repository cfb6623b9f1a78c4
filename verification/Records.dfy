/** The little-endian records PMOSREC v3 puts on the wire. */
module Records {
  import opened Bytes
  import Crc32
  import opened Plan

  const U32_LIMIT := 0x1_0000_0000
  const FRAME_MAGIC := 0x33464B50
  const FRAME_HEADER_SIZE := 40

  type u32 = x: int | 0 <= x < U32_LIMIT

  function Le32(v: u32): (s: seq<byte>)
    ensures |s| == 4
  {
    [v % 256, v / 256 % 256, v / 65536 % 256, v / 16777216]
  }

  function FromBytes(b0: int, b1: int, b2: int, b3: int): int {
    b0 + 256 * b1 + 65536 * b2 + 16777216 * b3
  }

  function U32(data: seq<byte>, at: nat): u32
    requires at + 4 <= |data|
  {
    FromBytes(data[at], data[at + 1], data[at + 2], data[at + 3])
  }

  lemma FromLe32(v: u32)
    ensures FromBytes(Le32(v)[0], Le32(v)[1], Le32(v)[2], Le32(v)[3]) == v
  {
    assert v / 256 == v / 65536 * 256 + v / 256 % 256;
    assert v / 65536 == v / 16777216 * 256 + v / 65536 % 256;
  }

  /** Reading a packed field gives the value back. */
  lemma U32OfLe32(v: u32, data: seq<byte>, at: nat)
    requires at + 4 <= |data| && data[at..at + 4] == Le32(v)
    ensures U32(data, at) == v
  {
    FromLe32(v);
    hide Le32, FromBytes;
    var field := data[at..at + 4];
    assert data[at] == field[0] && data[at + 1] == field[1] && data[at + 2] == field[2] && data[at + 3] == field[3];
  }

  function Pack(fields: seq<u32>): (s: seq<byte>)
    ensures |s| == 4 * |fields|
  {
    if |fields| == 0 then [] else Le32(fields[0]) + Pack(fields[1..])
  }

  /** Every packed field is found at its place. */
  lemma {:induction false} PackedField(fields: seq<u32>, k: nat)
    requires k < |fields|
    ensures U32(Pack(fields), 4 * k) == fields[k]
  {
    hide Le32, FromBytes;
    var s, rest := Pack(fields), Pack(fields[1..]);
    if k == 0 {
      assert s[0..4] == Le32(fields[0]);
      U32OfLe32(fields[0], s, 0);
    } else {
      PackedField(fields[1..], k - 1);
      assert s[4..] == rest;
      U32Suffix(s, 4, 4 * (k - 1));
    }
  }

  lemma U32Suffix(data: seq<byte>, skip: nat, at: nat)
    requires skip + at + 4 <= |data|
    ensures U32(data[skip..], at) == U32(data, skip + at)
  {
  }

  // ------------------------------------------------------------ frame records

  predicate Representable(f: EncodedFrame) {
    && f.sequence < U32_LIMIT && f.offset < U32_LIMIT && f.decodedLength < U32_LIMIT
    && f.flags < U32_LIMIT && |f.payload| < U32_LIMIT && f.decodedCrc32 < U32_LIMIT
  }

  /** The header fields before the header's own checksum. */
  function HeaderFields(f: EncodedFrame, objectId: u32): (fields: seq<u32>)
    requires Representable(f)
    ensures |fields| == 9
  {
    [FRAME_MAGIC, objectId, f.sequence, f.offset, f.decodedLength, |f.payload|, f.flags,
     Crc32.Value(f.payload), f.decodedCrc32]
  }

  /** EncodedFrame.wire: nine fields, the checksum over them, the payload. */
  function Wire(f: EncodedFrame, objectId: u32): (w: seq<byte>)
    requires Representable(f)
    ensures |w| == FRAME_HEADER_SIZE + |f.payload|
  {
    var head := Pack(HeaderFields(f, objectId));
    head + Le32(Crc32.Value(head)) + f.payload
  }

  /** What a receiver can take for an intact frame: the magic, both checksums
      and the announced length have to agree. */
  function Parse(w: seq<byte>): Option<(u32, EncodedFrame)> {
    if |w| < FRAME_HEADER_SIZE || U32(w, 0) != FRAME_MAGIC || U32(w, 36) != Crc32.Value(w[..36])
       || |w| != FRAME_HEADER_SIZE + U32(w, 20) || U32(w, 28) != Crc32.Value(w[40..])
    then None
    else Some((U32(w, 4), EncodedFrame(U32(w, 8), U32(w, 12), U32(w, 16), U32(w, 24), w[40..], U32(w, 32))))
  }

  lemma {:induction false} HeaderField(f: EncodedFrame, objectId: u32, k: nat)
    requires Representable(f) && k < 9
    ensures U32(Wire(f, objectId), 4 * k) == HeaderFields(f, objectId)[k]
  {
    var w, fields := Wire(f, objectId), HeaderFields(f, objectId);
    hide Le32, FromBytes, Pack, HeaderFields;
    PackedField(fields, k);
    var head := Pack(fields);
    assert w[..36] == head;
    assert w[4 * k] == head[4 * k] && w[4 * k + 1] == head[4 * k + 1];
    assert w[4 * k + 2] == head[4 * k + 2] && w[4 * k + 3] == head[4 * k + 3];
  }

  /** Where the checksums of a record are. */
  lemma Layout(f: EncodedFrame, objectId: u32)
    requires Representable(f)
    ensures var w := Wire(f, objectId);
            w[40..] == f.payload && U32(w, 36) == Crc32.Value(w[..36])
  {
    hide Le32, FromBytes, Pack, HeaderFields, Crc32.Value;
    var w := Wire(f, objectId);
    var head := Pack(HeaderFields(f, objectId));
    assert w[..36] == head;
    assert w[36..40] == Le32(Crc32.Value(head));
    U32OfLe32(Crc32.Value(head), w, 36);
  }

  /** An intact wire image parses to exactly the frame it was made from. */
  lemma ParseWire(f: EncodedFrame, objectId: u32)
    requires Representable(f)
    ensures Parse(Wire(f, objectId)) == Some((objectId, f))
  {
    hide U32, Wire, Pack, Crc32.Value;
    Layout(f, objectId);
    HeaderField(f, objectId, 0);
    HeaderField(f, objectId, 1);
    HeaderField(f, objectId, 2);
    HeaderField(f, objectId, 3);
    HeaderField(f, objectId, 4);
    HeaderField(f, objectId, 5);
    HeaderField(f, objectId, 6);
    HeaderField(f, objectId, 7);
    HeaderField(f, objectId, 8);
  }

  // ------------------------------------------------------------------- damage

  lemma U32Four(data: seq<byte>, at: nat)
    requires at + 4 <= |data|
    ensures U32(data, at) == Crc32.Four(data[at..at + 4])
  {
  }

  /** A stretch whose last four bytes are the checksum of the others. */
  predicate Sealed(w: seq<byte>, n: nat)
    requires n + 4 <= |w|
  {
    U32(w, n) == Crc32.Value(w[..n])
  }

  /** Damage within four consecutive bytes of such a stretch breaks it, wherever in the
      bytes or in their checksum it is. */
  lemma SealLost(w: seq<byte>, v: seq<byte>, n: nat)
    requires n + 4 <= |w| && n + 4 <= |v| && Sealed(w, n) && Crc32.NearMiss(w[..n + 4], v[..n + 4])
    ensures !Sealed(v, n)
  {
    hide U32, Crc32.Four, Crc32.Value, Crc32.NearMiss;
    var next := n + 4;
    U32Four(w, n);
    U32Four(v, n);
    assert w[..next] == w[..n] + w[n..next] && v[..next] == v[..n] + v[n..next];
    Crc32.SealBroken(w[..n], w[n..next], v[..n], v[n..next]);
  }

  lemma NearMissPrefix(w: seq<byte>, v: seq<byte>, n: nat)
    requires Crc32.NearMiss(w, v) && n <= |w|
    ensures w[..n] == v[..n] || Crc32.NearMiss(w[..n], v[..n])
  {
    var p: nat :| Crc32.AgreeOutside(w, v, p);
    assert Crc32.AgreeOutside(w[..n], v[..n], p);
  }

  lemma NearMissSuffix(w: seq<byte>, v: seq<byte>, n: nat)
    requires Crc32.NearMiss(w, v) && n <= |w|
    ensures w[n..] == v[n..] || Crc32.NearMiss(w[n..], v[n..])
  {
    var p: nat :| Crc32.AgreeOutside(w, v, p);
    var q: nat := if p < n then 0 else p - n;
    forall i | 0 <= i < |w| - n && w[n..][i] != v[n..][i] ensures q <= i < q + 4 {
      var k := n + i;
      assert w[k] == w[n..][i] && v[k] == v[n..][i];
    }
    assert Crc32.AgreeOutside(w[n..], v[n..], q);
  }

  /** Damage within four consecutive bytes anywhere in a frame record, header, payload
      or checksums, makes a receiver drop it. */
  lemma DamageDropped(w: seq<byte>, v: seq<byte>)
    requires Parse(w).Some? && Crc32.NearMiss(w, v)
    ensures Parse(v).None?
  {
    hide U32, Crc32.Value;
    var n := FRAME_HEADER_SIZE;
    assert |v| == |w| && Sealed(w, 36);
    if w[..n] == v[..n] {
      PayloadDamaged(w, v);
    } else {
      NearMissPrefix(w, v, n);
      SealLost(w, v, 36);
    }
  }

  lemma PayloadDamaged(w: seq<byte>, v: seq<byte>)
    requires Parse(w).Some? && Crc32.NearMiss(w, v) && w[..FRAME_HEADER_SIZE] == v[..FRAME_HEADER_SIZE]
    ensures Parse(v).None?
  {
    var n := FRAME_HEADER_SIZE;
    NearMissSuffix(w, v, n);
    U32Same(w, v, 28);
    assert w == w[..n] + w[n..] && v == v[..n] + v[n..];
    hide U32, Crc32.Value, Crc32.NearMiss;
    Crc32.NearMissDetected(w[n..], v[n..]);
  }

  lemma U32Same(w: seq<byte>, v: seq<byte>, at: nat)
    requires at + 4 <= FRAME_HEADER_SIZE <= |w| == |v| && w[..FRAME_HEADER_SIZE] == v[..FRAME_HEADER_SIZE]
    ensures U32(w, at) == U32(v, at)
  {
    hide FromBytes;
    forall i | at <= i < at + 4 ensures w[i] == v[i] {
      assert w[i] == w[..FRAME_HEADER_SIZE][i] && v[i] == v[..FRAME_HEADER_SIZE][i];
    }
  }
}
