/** make_plan of tools/firmware-flasher/pmosrec_v3.py: cutting an object into
    sparse and LZ4-compressed frames, and why the frames carry the object. */
module Plan {
  import opened Bytes
  import Lz4
  import Crc32

  const REP_RAW := 0
  const REP_SPARSE := 1
  const REP_LZ4 := 2
  const REP_SPARSE_LZ4 := 3
  const FRAME_FLAG_LZ4 := 1

  datatype EncodedFrame = EncodedFrame(
    sequence: nat,
    offset: nat,
    decodedLength: nat,
    flags: nat,
    payload: seq<byte>,
    decodedCrc32: nat)

  datatype PlanError = SelfTestFailed

  predicate Sparse(mode: int) { mode == REP_SPARSE || mode == REP_SPARSE_LZ4 }

  predicate UsesLz4(mode: int) { mode == REP_LZ4 || mode == REP_SPARSE_LZ4 }

  predicate AllErased(s: seq<byte>) {
    forall k :: 0 <= k < |s| ==> s[k] == 255
  }

  /** The frame-sized piece of the object that starts at `offset`. */
  function Chunk(data: seq<byte>, offset: nat, frameSize: nat): seq<byte>
    requires offset <= |data|
  {
    data[offset..Min(offset + frameSize, |data|)]
  }

  /** What a receiver gets out of a frame. */
  function Payload(f: EncodedFrame, frameSize: nat): Result<seq<byte>, Lz4.Error> {
    if f.flags == FRAME_FLAG_LZ4 then Lz4.Decode(f.payload, frameSize) else Ok(f.payload)
  }

  // --------------------------------------------------------- what a plan says

  /** The frame decodes to its chunk of the object, announces the chunk's
      length and checksum, and never costs more than the chunk itself. */
  predicate Carries(data: seq<byte>, frameSize: nat, f: EncodedFrame) {
    && f.offset <= |data|
    && Payload(f, frameSize) == Ok(Chunk(data, f.offset, frameSize))
    && f.decodedLength == |Chunk(data, f.offset, frameSize)|
    && f.decodedCrc32 == Crc32.Value(Chunk(data, f.offset, frameSize))
    && f.flags in {0, FRAME_FLAG_LZ4}
    && (if f.flags == FRAME_FLAG_LZ4 then |f.payload| < f.decodedLength
        else f.payload == Chunk(data, f.offset, frameSize))
  }

  /** How a chunk goes out: compressed exactly when the mode asks for it and the
      greedy block of the chunk is shorter than the chunk. */
  ghost predicate Represents(decoded: seq<byte>, mode: int, flags: nat, payload: seq<byte>) {
    forall b :: Lz4.GreedyBlock(decoded, b) ==>
      && (flags == FRAME_FLAG_LZ4 <==> UsesLz4(mode) && |Lz4.Spell(b, 0)| < |decoded|)
      && (flags == FRAME_FLAG_LZ4 ==> payload == Lz4.Spell(b, 0))
  }

  /** The same of a frame; the one frame of a wholly erased object goes out raw in a
      sparse plan. */
  ghost predicate Chosen(data: seq<byte>, frameSize: nat, mode: int, f: EncodedFrame)
    requires f.offset <= |data|
  {
    var decoded := Chunk(data, f.offset, frameSize);
    if Sparse(mode) && AllErased(decoded) then f.flags == 0 else Represents(decoded, mode, f.flags, f.payload)
  }

  predicate Covers(f: EncodedFrame, k: nat) {
    f.offset <= k < f.offset + f.decodedLength
  }

  /** Position `k` is in some frame, or in a chunk that is erased anyway. */
  ghost predicate Accounted(data: seq<byte>, frameSize: nat, mode: int, frames: seq<EncodedFrame>, k: nat)
    requires 0 < frameSize && k < |data|
  {
    || (exists i :: 0 <= i < |frames| && Covers(frames[i], k))
    || (Sparse(mode) && AllErased(Chunk(data, k - k % frameSize, frameSize)))
  }

  ghost predicate Framed(data: seq<byte>, frameSize: nat, mode: int, frames: seq<EncodedFrame>)
    requires 0 < frameSize
  {
    && (forall i :: 0 <= i < |frames| ==> frames[i].sequence == i)
    && (forall i :: 0 <= i < |frames| ==>
          Carries(data, frameSize, frames[i]) && Chosen(data, frameSize, mode, frames[i]))
    && (forall i :: 0 <= i < |frames| ==> frames[i].offset % frameSize == 0)
    && (forall i, j :: 0 <= i < j < |frames| ==> frames[i].offset + frames[i].decodedLength <= frames[j].offset)
    && (forall i :: 0 <= i < |frames| && !UsesLz4(mode) ==> frames[i].flags == 0)
  }

  /** Frames are numbered in order, sit on disjoint ascending chunks, and leave
      out exactly the erased chunks of a sparse plan.  A wholly erased object
      still gets one frame. */
  ghost predicate GoodPlan(data: seq<byte>, frameSize: nat, mode: int, frames: seq<EncodedFrame>)
    requires 0 < frameSize
  {
    && |frames| > 0
    && Framed(data, frameSize, mode, frames)
    && (forall k :: 0 <= k < |data| ==> Accounted(data, frameSize, mode, frames, k))
    && (forall i :: 0 <= i < |frames| && Sparse(mode) && AllErased(Chunk(data, frames[i].offset, frameSize)) ==>
          AllErased(data) && |frames| == 1 && frames[i].offset == 0)
    && (forall i :: 0 <= i < |frames| && frames[i].decodedLength == 0 ==> data == [] && |frames| == 1)
  }

  lemma ChunkStart(k: nat, offset: nat, frameSize: nat)
    requires 0 < frameSize && offset % frameSize == 0 && offset <= k < offset + frameSize
    ensures k - k % frameSize == offset
  {
    var q := offset / frameSize;
    assert offset == q * frameSize;
    assert (q * frameSize + (k - offset)) % frameSize == k - offset by {
      ModPart(q, frameSize, k - offset);
    }
  }

  /** A multiple of `n` strictly between `-n` and `n` is zero. */
  lemma SmallMultiple(t: int, n: int)
    requires -n < t * n < n
    ensures t == 0
  {
  }

  lemma ModPart(q: nat, n: nat, r: nat)
    requires r < n
    ensures (q * n + r) % n == r
  {
    var x := q * n + r;
    var d, m := x / n, x % n;
    assert x == d * n + m;
    assert (d - q) * n == d * n - q * n;
    SmallMultiple(d - q, n);
  }

  // ------------------------------------------------------------- the planner

  /** One frame of make_plan: compressed when the mode asks for it and it pays. */
  method EncodeChunk(decoded: seq<byte>, frameSize: nat, mode: int) returns (r: Result<(nat, seq<byte>), PlanError>)
    requires |decoded| <= frameSize
    ensures r.Ok?
    ensures var (flags, payload) := r.value;
            && flags in {0, FRAME_FLAG_LZ4} && (!UsesLz4(mode) ==> flags == 0)
            && (if flags == FRAME_FLAG_LZ4
                then |payload| < |decoded| && Lz4.Decode(payload, frameSize) == Ok(decoded)
                else payload == decoded)
            && Represents(decoded, mode, flags, payload)
  {
    hide Lz4.GreedyBlock, Lz4.Spell;
    var flags, payload := 0, decoded;
    if UsesLz4(mode) {
      var compressed, b := Lz4.CompressBlock(decoded);
      forall other | Lz4.GreedyBlock(decoded, other)
        ensures other == b
      {
        Lz4.BlockOnce(decoded, other, b);
      }
      if |compressed| < |decoded| {
        var check := Lz4.DecompressBlock(compressed, frameSize);
        if check != Ok(decoded) {
          return Err(SelfTestFailed);
        }
        payload, flags := compressed, FRAME_FLAG_LZ4;
      }
    }
    r := Ok((flags, payload));
  }

  /** What holds when the planner stands at `offset`. */
  ghost predicate PlannedTo(data: seq<byte>, frameSize: nat, mode: int, frames: seq<EncodedFrame>, offset: nat)
    requires 0 < frameSize
  {
    && offset % frameSize == 0
    && Framed(data, frameSize, mode, frames)
    && (forall i :: 0 <= i < |frames| ==> frames[i].offset + frames[i].decodedLength <= offset)
    && (forall k :: 0 <= k < offset && k < |data| ==> Accounted(data, frameSize, mode, frames, k))
    && (forall i :: 0 <= i < |frames| && Sparse(mode) ==> !AllErased(Chunk(data, frames[i].offset, frameSize)))
    && (forall i :: 0 <= i < |frames| ==> 0 < frames[i].decodedLength)
  }

  /** make_plan.  The compressor self-test cannot fail. */
  method MakePlan(data: seq<byte>, frameSize: nat, mode: int) returns (r: Result<seq<EncodedFrame>, PlanError>)
    requires 0 < frameSize
    ensures r.Ok? && GoodPlan(data, frameSize, mode, r.value)
  {
    hide PlannedTo, Chunk, AllErased, Carries, GoodPlan, Chosen, Represents;
    var frames: seq<EncodedFrame> := [];
    var offset: nat := 0;
    assert PlannedTo(data, frameSize, mode, [], 0) by { PlannedStart(data, frameSize, mode); }
    while offset < |data|
      invariant PlannedTo(data, frameSize, mode, frames, offset)
      decreases |data| - offset
    {
      var decoded := Chunk(data, offset, frameSize);
      ChunkLength(data, offset, frameSize);
      if Sparse(mode) && AllErased(decoded) {
        PlannedSkip(data, frameSize, mode, frames, offset);
      } else {
        var encoded := EncodeChunk(decoded, frameSize, mode);
        var frame := EncodedFrame(|frames|, offset, |decoded|, encoded.value.0, encoded.value.1, Crc32.Value(decoded));
        CarriesChunk(data, frameSize, frame);
        ChosenChunk(data, frameSize, mode, frame);
        PlannedFrame(data, frameSize, mode, frames, offset, frame);
        frames := frames + [frame];
      }
      offset := offset + frameSize;
    }
    if |frames| == 0 {
      var decoded := Chunk(data, 0, frameSize);
      frames := [EncodedFrame(0, 0, |decoded|, 0, decoded, Crc32.Value(decoded))];
      PlannedNothing(data, frameSize, mode, offset);
    } else {
      PlannedEnd(data, frameSize, mode, frames, offset);
    }
    r := Ok(frames);
  }

  lemma ChunkLength(data: seq<byte>, offset: nat, frameSize: nat)
    requires offset <= |data|
    ensures |Chunk(data, offset, frameSize)| == Min(frameSize, |data| - offset)
  {
  }

  lemma PlannedStart(data: seq<byte>, frameSize: nat, mode: int)
    requires 0 < frameSize
    ensures PlannedTo(data, frameSize, mode, [], 0)
  {
  }

  lemma NextBoundary(offset: nat, frameSize: nat)
    requires 0 < frameSize && offset % frameSize == 0
    ensures (offset + frameSize) % frameSize == 0
  {
    ModPart(offset / frameSize + 1, frameSize, 0);
    assert (offset / frameSize + 1) * frameSize == offset + frameSize;
  }

  lemma PlannedSkip(data: seq<byte>, frameSize: nat, mode: int, frames: seq<EncodedFrame>, offset: nat)
    requires 0 < frameSize && offset < |data| && PlannedTo(data, frameSize, mode, frames, offset)
    requires Sparse(mode) && AllErased(Chunk(data, offset, frameSize))
    ensures PlannedTo(data, frameSize, mode, frames, offset + frameSize)
  {
    hide AllErased, Chunk, Framed, Sparse;
    NextBoundary(offset, frameSize);
    forall k | 0 <= k < offset + frameSize && k < |data|
      ensures Accounted(data, frameSize, mode, frames, k)
    {
      AccountedNext(data, frameSize, mode, frames, frames, offset, k);
    }
  }

  lemma CarriesChunk(data: seq<byte>, frameSize: nat, f: EncodedFrame)
    requires f.offset <= |data|
    requires var chunk := Chunk(data, f.offset, frameSize);
             && f.flags in {0, FRAME_FLAG_LZ4} && f.decodedLength == |chunk| && f.decodedCrc32 == Crc32.Value(chunk)
             && (if f.flags == FRAME_FLAG_LZ4
                 then |f.payload| < |chunk| && Lz4.Decode(f.payload, frameSize) == Ok(chunk)
                 else f.payload == chunk)
    ensures Carries(data, frameSize, f)
  {
  }

  lemma PlannedFrame(data: seq<byte>, frameSize: nat, mode: int, frames: seq<EncodedFrame>, offset: nat,
                     f: EncodedFrame)
    requires 0 < frameSize && offset < |data| && PlannedTo(data, frameSize, mode, frames, offset)
    requires f.sequence == |frames| && f.offset == offset
    requires Carries(data, frameSize, f) && Chosen(data, frameSize, mode, f)
    requires !UsesLz4(mode) ==> f.flags == 0
    requires Sparse(mode) ==> !AllErased(Chunk(data, offset, frameSize))
    ensures PlannedTo(data, frameSize, mode, frames + [f], offset + frameSize)
  {
    hide AllErased, Sparse, UsesLz4, Payload, Chosen;
    NextBoundary(offset, frameSize);
    ChunkLength(data, offset, frameSize);
    hide Chunk;
    assert f.decodedLength == |Chunk(data, f.offset, frameSize)|;
    hide Carries;
    forall k | 0 <= k < offset + frameSize && k < |data|
      ensures Accounted(data, frameSize, mode, frames + [f], k)
    {
      AccountedNext(data, frameSize, mode, frames, frames + [f], offset, k);
    }
  }

  lemma PlannedEnd(data: seq<byte>, frameSize: nat, mode: int, frames: seq<EncodedFrame>, offset: nat)
    requires 0 < frameSize && |data| <= offset && |frames| > 0 && PlannedTo(data, frameSize, mode, frames, offset)
    ensures GoodPlan(data, frameSize, mode, frames)
  {
    hide Accounted, Chunk, AllErased, Framed;
  }

  lemma ChosenChunk(data: seq<byte>, frameSize: nat, mode: int, f: EncodedFrame)
    requires f.offset <= |data| && !(Sparse(mode) && AllErased(Chunk(data, f.offset, frameSize)))
    requires Represents(Chunk(data, f.offset, frameSize), mode, f.flags, f.payload)
    ensures Chosen(data, frameSize, mode, f)
  {
    hide Represents, Chunk, AllErased;
  }

  /** Without any frame yet the object is empty, or the plan sparse. */
  lemma ChosenFallback(data: seq<byte>, frameSize: nat, mode: int, f: EncodedFrame)
    requires 0 < frameSize && f.offset == 0 && f.flags == 0
    requires AllErased(data) && (data == [] || Sparse(mode))
    ensures Chosen(data, frameSize, mode, f)
  {
    assert AllErased(Chunk(data, 0, frameSize));
    if data == [] {
      assert Chunk(data, 0, frameSize) == [];
      assert Lz4.Spell(Lz4.Empty, 0) == [];
    }
  }

  /** With no frame at all every byte is erased, and the fallback frame is a
      plan. */
  lemma PlannedNothing(data: seq<byte>, frameSize: nat, mode: int, offset: nat)
    requires 0 < frameSize && |data| <= offset && PlannedTo(data, frameSize, mode, [], offset)
    ensures var decoded := Chunk(data, 0, frameSize);
            GoodPlan(data, frameSize, mode, [EncodedFrame(0, 0, |decoded|, 0, decoded, Crc32.Value(decoded))])
  {
    hide Carries, Chosen, AllErased, Sparse, Chunk, Accounted, Crc32.Value;
    ErasedThroughout(data, frameSize, mode);
    var decoded := Chunk(data, 0, frameSize);
    var f := EncodedFrame(0, 0, |decoded|, 0, decoded, Crc32.Value(decoded));
    CarriesChunk(data, frameSize, f);
    FallbackAccounts(data, frameSize, mode, f);
    ChosenFallback(data, frameSize, mode, f);
    ChunkLength(data, 0, frameSize);
    hide PlannedTo, GoodPlan;
    OneFrame(data, frameSize, mode, f);
  }

  lemma OneFrame(data: seq<byte>, frameSize: nat, mode: int, f: EncodedFrame)
    requires 0 < frameSize && AllErased(data) && f.sequence == 0 && f.offset == 0 && f.flags == 0
    requires f.decodedLength == 0 ==> data == []
    requires Carries(data, frameSize, f) && Chosen(data, frameSize, mode, f)
    requires forall k :: 0 <= k < |data| ==> Accounted(data, frameSize, mode, [f], k)
    ensures GoodPlan(data, frameSize, mode, [f])
  {
    hide Carries, Chosen, AllErased, Sparse, Chunk, Accounted;
  }

  lemma FallbackAccounts(data: seq<byte>, frameSize: nat, mode: int, f: EncodedFrame)
    requires 0 < frameSize && forall k :: 0 <= k < |data| ==> Accounted(data, frameSize, mode, [], k)
    ensures data != [] ==> Sparse(mode)
    ensures forall k :: 0 <= k < |data| ==> Accounted(data, frameSize, mode, [f], k)
  {
    hide Sparse, AllErased, Chunk;
    if data != [] {
      assert Accounted(data, frameSize, mode, [], 0);
    }
    forall k | 0 <= k < |data| ensures Accounted(data, frameSize, mode, [f], k) {
      assert Accounted(data, frameSize, mode, [], k);
    }
  }

  lemma ErasedThroughout(data: seq<byte>, frameSize: nat, mode: int)
    requires 0 < frameSize
    requires forall k :: 0 <= k < |data| ==> Accounted(data, frameSize, mode, [], k)
    ensures AllErased(data)
  {
    forall k | 0 <= k < |data| ensures data[k] == 255 {
      assert Accounted(data, frameSize, mode, [], k);
      hide Chunk;
      InOwnChunk(data, frameSize, k);
    }
  }

  lemma AccountedNext(data: seq<byte>, frameSize: nat, mode: int, before: seq<EncodedFrame>, frames: seq<EncodedFrame>,
                      offset: nat, k: nat)
    requires 0 < frameSize && offset % frameSize == 0 && offset < |data|
    requires k < |data| && k < offset + frameSize
    requires k < offset ==> Accounted(data, frameSize, mode, before, k)
    requires if frames == before then Sparse(mode) && AllErased(Chunk(data, offset, frameSize)) else
               && |frames| == |before| + 1 && before == frames[..|before|]
               && frames[|before|].offset == offset
               && frames[|before|].decodedLength == |Chunk(data, offset, frameSize)|
    ensures Accounted(data, frameSize, mode, frames, k)
  {
    if k < offset {
      if i :| 0 <= i < |before| && Covers(before[i], k) {
        assert frames[i] == before[i];
      }
    } else {
      ChunkStart(k, offset, frameSize);
      if frames != before {
        assert Covers(frames[|before|], k);
      }
    }
  }

  lemma InOwnChunk(data: seq<byte>, frameSize: nat, k: nat)
    requires 0 < frameSize && k < |data|
    requires AllErased(Chunk(data, k - k % frameSize, frameSize))
    ensures data[k] == 255
  {
    var start := k - k % frameSize;
    assert Chunk(data, start, frameSize)[k - start] == data[k];
  }

  // ------------------------------------------------------ what frames rebuild

  /** A receiver's buffer after it stored one frame. */
  function Store(buffer: seq<byte>, f: EncodedFrame, frameSize: nat): (r: seq<byte>)
    ensures |r| == |buffer|
  {
    match Payload(f, frameSize)
    case Ok(bytes) =>
      if f.offset + |bytes| <= |buffer| then buffer[..f.offset] + bytes + buffer[f.offset + |bytes|..] else buffer
    case Err(_) => buffer
  }

  function StoreAll(buffer: seq<byte>, frames: seq<EncodedFrame>, frameSize: nat): (r: seq<byte>)
    ensures |r| == |buffer|
  {
    if |frames| == 0 then buffer
    else Store(StoreAll(buffer, frames[..|frames| - 1], frameSize), frames[|frames| - 1], frameSize)
  }

  /** Every byte is either the object's or still erased. */
  predicate Faithful(data: seq<byte>, buffer: seq<byte>) {
    |buffer| == |data| && forall k :: 0 <= k < |data| ==> buffer[k] == data[k] || buffer[k] == 255
  }

  /** The frame's range of the buffer is the object's. */
  predicate Landed(data: seq<byte>, buffer: seq<byte>, f: EncodedFrame) {
    |buffer| == |data| && forall k :: 0 <= k < |data| && Covers(f, k) ==> buffer[k] == data[k]
  }

  /** Storing a frame lands it and disturbs nothing that has landed. */
  lemma StoreLands(data: seq<byte>, frameSize: nat, f: EncodedFrame, buffer: seq<byte>)
    requires Carries(data, frameSize, f) && Faithful(data, buffer)
    ensures Faithful(data, Store(buffer, f, frameSize))
    ensures Landed(data, Store(buffer, f, frameSize), f)
    ensures forall g :: Landed(data, buffer, g) ==> Landed(data, Store(buffer, f, frameSize), g)
  {
    var bytes := Chunk(data, f.offset, frameSize);
    var r := Store(buffer, f, frameSize);
    forall k | 0 <= k < |data|
      ensures r[k] == if Covers(f, k) then data[k] else buffer[k]
    {
    }
  }

  /** A buffer in which every frame of a plan has landed is the object. */
  lemma AllLanded(data: seq<byte>, frameSize: nat, mode: int, frames: seq<EncodedFrame>, buffer: seq<byte>)
    requires 0 < frameSize && GoodPlan(data, frameSize, mode, frames) && Faithful(data, buffer)
    requires forall i :: 0 <= i < |frames| ==> Landed(data, buffer, frames[i])
    ensures buffer == data
  {
    forall k | 0 <= k < |data| ensures buffer[k] == data[k] {
      assert Accounted(data, frameSize, mode, frames, k);
      if i :| 0 <= i < |frames| && Covers(frames[i], k) {
        assert Landed(data, buffer, frames[i]);
      } else {
        InOwnChunk(data, frameSize, k);
      }
    }
  }

  lemma {:induction false} StoreAllLands(data: seq<byte>, frameSize: nat, frames: seq<EncodedFrame>, buffer: seq<byte>)
    requires Faithful(data, buffer)
    requires forall i :: 0 <= i < |frames| ==> Carries(data, frameSize, frames[i])
    ensures Faithful(data, StoreAll(buffer, frames, frameSize))
    ensures forall i :: 0 <= i < |frames| ==> Landed(data, StoreAll(buffer, frames, frameSize), frames[i])
    decreases |frames|
  {
    hide Store, Carries, Faithful, Landed;
    if |frames| > 0 {
      var rest, f := frames[..|frames| - 1], frames[|frames| - 1];
      StoreAllLands(data, frameSize, rest, buffer);
      StoreLands(data, frameSize, f, StoreAll(buffer, rest, frameSize));
      forall i | 0 <= i < |frames| ensures Landed(data, StoreAll(buffer, frames, frameSize), frames[i]) {
        if i < |rest| {
          assert Landed(data, StoreAll(buffer, rest, frameSize), rest[i]);
        }
      }
    }
  }

  /** Writing a plan's frames into an erased buffer yields the object. */
  lemma PlanRebuilds(data: seq<byte>, frameSize: nat, mode: int, frames: seq<EncodedFrame>)
    requires 0 < frameSize && GoodPlan(data, frameSize, mode, frames)
    ensures StoreAll(Erased(|data|), frames, frameSize) == data
  {
    StoreAllLands(data, frameSize, frames, Erased(|data|));
    AllLanded(data, frameSize, mode, frames, StoreAll(Erased(|data|), frames, frameSize));
  }
}
