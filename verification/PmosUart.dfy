/** PMOSUART/1: the receiver of fwupdate/fwserialrx.c as a function of the
    commands it is given. */
module PmosUart {
  import opened Bytes
  import Base64
  import Crc32

  const U32_LIMIT := 0x1_0000_0000
  const PAYLOAD_LIMIT := 4096
  const BLOCK_LIMIT := 3072

  datatype Kind = Firmware | Manifest

  datatype Command =
    | Begin(kind: Kind, size: nat, hash: string, name: string)
    | Data(kind: Kind, sequence: nat, crc: nat, payload: string)
    | End(kind: Kind, frames: nat)
    | Done
    | Abort

  datatype Reply =
    | BeginAck(kind: Kind)
    | Ack(kind: Kind, sequence: nat)
    | ObjectOk(kind: Kind, size: nat, hash: string)
    | Complete
    | Error

  /** struct object_state; `part` is the part file, `destination` the finished
      one, `open` stands for a valid file descriptor. */
  datatype Object = Object(
    started: bool,
    complete: bool,
    open: bool,
    name: string,
    expectedHash: string,
    expectedSize: nat,
    received: nat,
    nextSequence: nat,
    lastSequence: nat,
    lastCrc: nat,
    part: seq<byte>,
    destination: Option<seq<byte>>)

  const UNUSED: Object := Object(false, false, false, "", "", 0, 0, 0, 0, 0, [], None)

  /** What the receiver process keeps, its limits, and the digest program it
      runs (not part of this model). */
  datatype Receiver = Receiver(
    firmware: Object,
    manifest: Object,
    active: Option<Kind>,
    maxFirmware: nat,
    maxManifest: nat,
    sha256: seq<byte> -> string)
  {
    function Get(kind: Kind): Object {
      if kind == Firmware then firmware else manifest
    }

    function Set(kind: Kind, o: Object): Receiver {
      if kind == Firmware then this.(firmware := o) else this.(manifest := o)
    }

    function Limit(kind: Kind): nat {
      if kind == Firmware then maxFirmware else maxManifest
    }
  }

  // ------------------------------------------------------------ field checks

  predicate HexDigit(c: char) {
    '0' <= c <= '9' || 'a' <= c <= 'f' || 'A' <= c <= 'F'
  }

  predicate ValidHash(hash: string) {
    |hash| == 64 && forall i :: 0 <= i < |hash| ==> HexDigit(hash[i])
  }

  function Lower(c: char): char {
    if 'A' <= c <= 'Z' then (c as int + 32) as char else c
  }

  function LowerAll(s: string): (r: string)
    ensures |r| == |s|
    ensures forall i :: 0 <= i < |s| ==> r[i] == Lower(s[i])
  {
    seq(|s|, i requires 0 <= i < |s| => Lower(s[i]))
  }

  predicate NameChar(c: char) {
    'a' <= c <= 'z' || 'A' <= c <= 'Z' || '0' <= c <= '9' || c in {'.', '_', '-'}
  }

  predicate ValidName(name: string) {
    0 < |name| <= 127 && name != "." && name != ".." && forall i :: 0 <= i < |name| ==> NameChar(name[i])
  }

  // ---------------------------------------------------------------- handlers

  /** object_begin: `None` stands for -1. */
  function BeginObject(o: Object, active: Option<Kind>, size: nat, hash: string, name: string,
                       limit: nat): Option<Object>
  {
    if o.started || o.complete || active.Some? || size == 0 || size > limit || !ValidHash(hash) || !ValidName(name)
    then None
    else Some(o.(started := true, open := true, name := name, expectedHash := LowerAll(hash), expectedSize := size,
                 received := 0, nextSequence := 0, lastSequence := U32_LIMIT - 1, lastCrc := 0, part := []))
  }

  predicate Duplicate(o: Object, sequence: nat, crc: nat) {
    (sequence + 1) % U32_LIMIT == o.nextSequence && o.lastSequence == sequence && o.lastCrc == crc
  }

  /** object_data on the active object: a repeated last frame changes nothing,
      the next frame is appended, anything else is refused. */
  function AppendBlock(o: Object, sequence: nat, crc: nat, payload: string): Option<Object> {
    if !o.open then None
    else if Duplicate(o, sequence, crc) then Some(o)
    else if sequence != o.nextSequence || |payload| == 0 || |payload| > PAYLOAD_LIMIT then None else
    match Base64.UartDecode(payload, BLOCK_LIMIT)
    case None => None
    case Some(block) =>
      if block == [] || o.received + |block| > o.expectedSize || Crc32.Value(block) != crc then None
      else Some(o.(received := o.received + |block|, lastSequence := sequence, lastCrc := crc,
                   nextSequence := (o.nextSequence + 1) % U32_LIMIT, part := o.part + block))
  }

  /** object_end on the active object. */
  function EndObject(o: Object, frames: nat, sha256: seq<byte> -> string): Option<Object> {
    if !o.open || frames != o.nextSequence || o.received != o.expectedSize
       || LowerAll(sha256(o.part)) != o.expectedHash
    then None
    else Some(o.(open := false, complete := true, destination := Some(o.part), part := []))
  }

  /** The command loop: the new state and the reply, or `None` when the
      receiver reports an error and gives up. */
  function Handle(r: Receiver, c: Command): Option<(Receiver, Reply)> {
    match c
    case Begin(kind, size, hash, name) =>
      (match BeginObject(r.Get(kind), r.active, size, hash, name, r.Limit(kind))
       case None => None
       case Some(o) => Some((r.Set(kind, o).(active := Some(kind)), BeginAck(kind))))
    case Data(kind, sequence, crc, payload) =>
      if r.active != Some(kind) then None else
      (match AppendBlock(r.Get(kind), sequence, crc, payload)
       case None => None
       case Some(o) => Some((r.Set(kind, o), Ack(kind, sequence))))
    case End(kind, frames) =>
      if r.active != Some(kind) then None else
      (match EndObject(r.Get(kind), frames, r.sha256)
       case None => None
       case Some(o) => Some((r.Set(kind, o).(active := None), ObjectOk(kind, o.expectedSize, o.expectedHash))))
    case Done =>
      if r.active.Some? || !r.firmware.complete then None else Some((r, Complete))
    case Abort => None
  }
}
