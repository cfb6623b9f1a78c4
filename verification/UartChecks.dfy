/** What the PMOSUART/1 receiver of fwupdate/fwserialrx.c refuses, whoever sends
    it: only checked blocks, in their order, get into a part file. */
module UartChecks {
  import opened Bytes
  import opened PmosUart
  import opened UartSystem
  import Base64
  import Crc32

  /** Whatever is sent: a command that changes a part file either starts the object
      with an empty one or is a DATA command for the active object that carries the
      next sequence number, decodes to exactly the bytes added, and declares their
      checksum. */
  lemma GrowthChecked(r: Receiver, c: Command, kind: Kind)
    requires Handle(r, c).Some?
    ensures var o, next := r.Get(kind), Handle(r, c).value.0.Get(kind);
            next.part != o.part ==>
              || (next.part == [] && ((c.Begin? && !o.started) || (c.End? && next.destination == Some(o.part))))
              || (&& c.Data? && c.kind == kind && r.active == Some(kind) && c.sequence == o.nextSequence
                  && o.part < next.part && |next.part| - |o.part| == next.received - o.received
                  && next.received <= o.expectedSize
                  && Base64.UartDecode(c.payload, BLOCK_LIMIT) == Some(next.part[|o.part|..])
                  && Crc32.Value(next.part[|o.part|..]) == c.crc)
  {
    hide Base64.UartDecode, Crc32.Value, ValidHash, ValidName, LowerAll;
    if c.Data? {
      var o := r.Get(c.kind);
      if !Duplicate(o, c.sequence, c.crc) {
        var block := Base64.UartDecode(c.payload, BLOCK_LIMIT).value;
        assert (o.part + block)[|o.part|..] == block;
      }
    }
  }

  /** A BEGIN is accepted exactly when no object is being received, none of its kind was
      before, the size is within the limit of the kind, the digest is 64 hexadecimal
      digits, and the name is that of a file in the directory it is put in. */
  lemma BeginIff(r: Receiver, kind: Kind, size: nat, hash: string, name: string)
    ensures var o := r.Get(kind);
            Handle(r, Begin(kind, size, hash, name)).Some? <==>
              && r.active.None? && !o.started && !o.complete
              && 0 < size <= (if kind == Firmware then r.maxFirmware else r.maxManifest)
              && |hash| == 64
              && (forall c :: c in hash ==> '0' <= c <= '9' || 'a' <= c <= 'f' || 'A' <= c <= 'F')
              && name !in {"", ".", ".."} && |name| < 128
              && forall c :: c in name ==>
                   '0' <= c <= '9' || 'a' <= c <= 'z' || 'A' <= c <= 'Z' || c == '.' || c == '_' || c == '-'
    ensures Handle(r, Begin(kind, size, hash, name)).Some? ==>
              var next := Handle(r, Begin(kind, size, hash, name)).value.0;
              && '/' !in name && next.active == Some(kind) && next == r.Set(kind, next.Get(kind)).(active := Some(kind))
              && next.Get(kind).part == [] && next.Get(kind).expectedSize == size && next.Get(kind).name == name
  {
    hide LowerAll;
    hide ValidHash, ValidName;
    HashIff(hash);
    NameIff(name);
  }

  lemma HashIff(hash: string)
    ensures ValidHash(hash) <==>
              |hash| == 64 && forall c :: c in hash ==> '0' <= c <= '9' || 'a' <= c <= 'f' || 'A' <= c <= 'F'
  {
    if forall i :: 0 <= i < |hash| ==> HexDigit(hash[i]) {
      forall c | c in hash ensures HexDigit(c) {
        var i :| 0 <= i < |hash| && hash[i] == c;
      }
    } else {
      var i :| 0 <= i < |hash| && !HexDigit(hash[i]);
      assert hash[i] in hash;
    }
  }

  lemma NameIff(name: string)
    ensures ValidName(name) <==>
              && name !in {"", ".", ".."} && |name| < 128
              && forall c :: c in name ==>
                   '0' <= c <= '9' || 'a' <= c <= 'z' || 'A' <= c <= 'Z' || c == '.' || c == '_' || c == '-'
  {
    if forall i :: 0 <= i < |name| ==> NameChar(name[i]) {
      forall c | c in name ensures NameChar(c) {
        var i :| 0 <= i < |name| && name[i] == c;
      }
    } else {
      var i :| 0 <= i < |name| && !NameChar(name[i]);
      assert name[i] in name;
    }
  }

  /** A DATA command that has neither the next sequence number nor the number and the
      checksum of the last frame makes the receiver give up; one that repeats the last
      frame changes nothing. */
  lemma OnlyNextOrLast(r: Receiver, kind: Kind, sequence: nat, crc: nat, payload: string)
    ensures var o := r.Get(kind);
            sequence != o.nextSequence
            && !(sequence == o.lastSequence && crc == o.lastCrc && (sequence + 1) % U32_LIMIT == o.nextSequence) ==>
              Handle(r, Data(kind, sequence, crc, payload)).None?
    ensures var o := r.Get(kind);
            sequence == o.lastSequence && crc == o.lastCrc && (sequence + 1) % U32_LIMIT == o.nextSequence
            && r.active == Some(kind) && o.open ==>
              Handle(r, Data(kind, sequence, crc, payload)) == Some((r, Ack(kind, sequence)))
  {
    hide Base64.UartDecode, Crc32.Value;
  }

  /** An END is accepted exactly for the active object, with the number of frames it took,
      all its bytes received and the digest that was declared; then the part file is the
      finished file. */
  lemma EndIff(r: Receiver, kind: Kind, frames: nat)
    ensures var o := r.Get(kind);
            Handle(r, End(kind, frames)).Some? <==>
              && r.active == Some(kind) && o.open && frames == o.nextSequence && o.received == o.expectedSize
              && LowerAll(r.sha256(o.part)) == o.expectedHash
    ensures Handle(r, End(kind, frames)).Some? ==>
              var o, next := r.Get(kind), Handle(r, End(kind, frames)).value.0;
              && next.active == None && next == r.Set(kind, next.Get(kind)).(active := None)
              && next.Get(kind).complete && !next.Get(kind).open && next.Get(kind).destination == Some(o.part)
  {
    hide LowerAll;
  }

  /** A frame whose block was damaged within four consecutive bytes, its checksum
      left as sent, never changes the receiver: it gives up, or it takes the frame for
      a repetition of the last one, which it already has; so it gives up on every
      frame it does not have yet. */
  lemma DamageRefused(job: Job, r: Receiver, i: nat, damaged: seq<byte>)
    requires Crc32.NearMiss(Block(job, i), damaged)
    ensures var c := Data(job.kind, i, Crc32.Value(Block(job, i)), Base64.Encode(damaged));
            && (Handle(r, c).None? || Handle(r, c) == Some((r, Ack(job.kind, i))))
            && (r.Get(job.kind).nextSequence == i && i + 1 < U32_LIMIT ==> Handle(r, c).None?)
  {
    hide Base64.UartDecode, Base64.Encode, Crc32.Value, Start, Block;
    Crc32.NearMissDetected(Block(job, i), damaged);
    if damaged != [] && |damaged| <= BLOCK_LIMIT {
      Base64.UartInvertsEncode(damaged, BLOCK_LIMIT);
    } else {
      LongRefused(damaged);
    }
    SetSame(r, job.kind);
  }

  lemma LongRefused(block: seq<byte>)
    requires block == [] || BLOCK_LIMIT < |block|
    ensures |Base64.Encode(block)| == 0 || |Base64.Encode(block)| > PAYLOAD_LIMIT
  {
    if block != [] {
      Base64.EncodeLength(block);
    }
  }

  lemma SetSame(r: Receiver, kind: Kind)
    ensures r.Set(kind, r.Get(kind)) == r
  {
  }
}
