/** The two programs of PMOSUART/1 as they run: fwserialrx's object handlers and
    command loop, and serial-runner's send_uart_object. */
module UartReceiver {
  import opened Bytes
  import opened PmosUart
  import Base64
  import Crc32

  /** struct object_state, updated in place. */
  class ObjectState {
    var started: bool
    var complete: bool
    var open: bool
    var name: string
    var expectedHash: string
    var expectedSize: nat
    var received: nat
    var nextSequence: nat
    var lastSequence: nat
    var lastCrc: nat
    var part: seq<byte>
    var destination: Option<seq<byte>>

    function Value(): Object
      reads this
    {
      Object(started, complete, open, name, expectedHash, expectedSize, received,
             nextSequence, lastSequence, lastCrc, part, destination)
    }

    constructor ()
      ensures Value() == UNUSED
    {
      started, complete, open, name, expectedHash := false, false, false, "", "";
      expectedSize, received, nextSequence, lastSequence, lastCrc := 0, 0, 0, 0, 0;
      part, destination := [], None;
    }

    /** object_begin. */
    method ObjectBegin(active: Option<Kind>, size: nat, hash: string, objectName: string, limit: nat) returns (ok: bool)
      modifies this
      ensures var o := BeginObject(old(Value()), active, size, hash, objectName, limit);
              ok == o.Some? && Value() == if ok then o.value else old(Value())
    {
      hide ValidHash, ValidName, LowerAll;
      if started || complete || active.Some? || size == 0 || size > limit || !ValidHash(hash)
         || !ValidName(objectName) {
        return false;
      }
      part := [];
      open := true;
      expectedSize := size;
      received := 0;
      nextSequence := 0;
      lastSequence := U32_LIMIT - 1;
      lastCrc := 0;
      expectedHash := LowerAll(hash);
      name := objectName;
      started := true;
      ok := true;
    }

    /** object_data. */
    method ObjectData(sequence: nat, declaredCrc: nat, payload: string) returns (ok: bool)
      modifies this
      ensures var o := AppendBlock(old(Value()), sequence, declaredCrc, payload);
              ok == o.Some? && Value() == if ok then o.value else old(Value())
    {
      hide Base64.UartDecode, Crc32.Value;
      if !open {
        return false;
      }
      if (sequence + 1) % U32_LIMIT == nextSequence && lastSequence == sequence && lastCrc == declaredCrc {
        return true;
      }
      if sequence != nextSequence {
        return false;
      }
      if |payload| == 0 || |payload| > PAYLOAD_LIMIT {
        return false;
      }
      var decoded := Base64.DecodeUart(payload, BLOCK_LIMIT);
      if decoded.None? || |decoded.value| == 0 || received + |decoded.value| > expectedSize {
        return false;
      }
      var block := decoded.value;
      var crc := Crc32.ValueOf(block);
      if crc != declaredCrc {
        return false;
      }
      part := part + block;
      received := received + |block|;
      lastSequence := sequence;
      lastCrc := declaredCrc;
      nextSequence := (nextSequence + 1) % U32_LIMIT;
      ok := true;
    }

    /** object_end; a refusal after the file was closed leaves it closed. */
    method ObjectEnd(frames: nat, sha256: seq<byte> -> string) returns (ok: bool)
      modifies this
      ensures var o := EndObject(old(Value()), frames, sha256);
              ok == o.Some? && (ok ==> Value() == o.value)
    {
      if !open || frames != nextSequence || received != expectedSize {
        return false;
      }
      open := false;
      if LowerAll(sha256(part)) != expectedHash {
        return false;
      }
      destination := Some(part);
      part := [];
      complete := true;
      ok := true;
    }

    /** cleanup_object, and before it the unlinking of the destination when the
        receiver gave up. */
    method Cleanup(succeeded: bool)
      modifies this
      ensures !open && part == [] && destination == if succeeded then old(destination) else None
      ensures name == old(name) && expectedHash == old(expectedHash) && expectedSize == old(expectedSize)
    {
      if !succeeded {
        destination := None;
      }
      open, part := false, [];
    }
  }

  /** The state in which the command loop accepts DONE, if it gets that far. */
  function Ends(r: Receiver, commands: seq<Command>): Option<Receiver>
    decreases |commands|
  {
    if commands == [] then None else
    match Handle(r, commands[0])
    case None => None
    case Some((next, reply)) => if reply == Complete then Some(next) else Ends(next, commands[1..])
  }

  /** What the receiver guarantees of an object whatever it is sent: the part file
      is as long as what was received, and a finished file has the size and the
      digest that were declared. */
  predicate Proper(o: Object, sha256: seq<byte> -> string) {
    && (o.open ==> |o.part| == o.received && !o.complete)
    && (o.destination.Some? <==> o.complete)
    && (o.complete ==>
          |o.destination.value| == o.expectedSize && LowerAll(sha256(o.destination.value)) == o.expectedHash)
  }

  predicate BothProper(r: Receiver) { Proper(r.firmware, r.sha256) && Proper(r.manifest, r.sha256) }

  lemma HandleKeepsProper(r: Receiver, c: Command)
    requires BothProper(r) && Handle(r, c).Some?
    ensures var next := Handle(r, c).value;
            BothProper(next.0) && next.0.sha256 == r.sha256 && (next.1 == Complete ==> next.0.firmware.complete)
  {
    hide Base64.UartDecode, Crc32.Value, ValidHash, ValidName, LowerAll;
  }

  /** Whatever commands come, correct or not: a run that completes has a firmware
      file of the declared size and digest, and a manifest file, if there is one,
      likewise. */
  lemma {:induction false} EndsProper(r: Receiver, commands: seq<Command>)
    requires BothProper(r) && Ends(r, commands).Some?
    ensures BothProper(Ends(r, commands).value) && Ends(r, commands).value.firmware.destination.Some?
    decreases |commands|
  {
    HandleKeepsProper(r, commands[0]);
    hide Handle, Proper;
    var (next, reply) := Handle(r, commands[0]).value;
    if reply != Complete {
      EndsProper(next, commands[1..]);
    } else {
      FirmwareThere(next);
    }
  }

  lemma FirmwareThere(r: Receiver)
    requires BothProper(r) && r.firmware.complete
    ensures r.firmware.destination.Some?
  {
  }

  /** The receiver process. */
  class Process {
    const firmware: ObjectState
    const manifest: ObjectState
    const maxFirmware: nat
    const maxManifest: nat
    const sha256: seq<byte> -> string
    var active: Option<Kind>

    ghost predicate Valid() {
      firmware != manifest
    }

    function State(): Receiver
      reads this, firmware, manifest
    {
      Receiver(firmware.Value(), manifest.Value(), active, maxFirmware, maxManifest, sha256)
    }

    constructor (maxFirmware: nat, maxManifest: nat, sha256: seq<byte> -> string)
      ensures Valid() && fresh(firmware) && fresh(manifest)
      ensures State() == Receiver(UNUSED, UNUSED, None, maxFirmware, maxManifest, sha256)
    {
      firmware := new ObjectState();
      manifest := new ObjectState();
      this.maxFirmware, this.maxManifest, this.sha256 := maxFirmware, maxManifest, sha256;
      active := None;
    }

    /** One turn of the command loop; no reply means it gives up. */
    method Execute(c: Command) returns (reply: Option<Reply>)
      requires Valid()
      modifies this, firmware, manifest
      ensures match Handle(old(State()), c)
              case None => reply.None?
              case Some((r, answer)) => State() == r && reply == Some(answer)
    {
      hide AppendBlock, EndObject, BeginObject;
      match c
      case Begin(kind, size, hash, name) =>
        var target, limit := firmware, maxFirmware;
        if kind == Manifest {
          target, limit := manifest, maxManifest;
        }
        var ok := target.ObjectBegin(active, size, hash, name, limit);
        if !ok {
          return None;
        }
        active := Some(kind);
        reply := Some(BeginAck(kind));
      case Data(kind, sequence, crc, payload) =>
        if active != Some(kind) {
          return None;
        }
        var target := if kind == Firmware then firmware else manifest;
        var ok := target.ObjectData(sequence, crc, payload);
        reply := if ok then Some(Ack(kind, sequence)) else None;
      case End(kind, frames) =>
        if active != Some(kind) {
          return None;
        }
        var target := if kind == Firmware then firmware else manifest;
        var ok := target.ObjectEnd(frames, sha256);
        if !ok {
          return None;
        }
        active := None;
        EndKeeps(old(State()).Get(kind), frames, sha256);
        reply := Some(ObjectOk(kind, target.expectedSize, target.expectedHash));
      case Done =>
        if active.Some? || !firmware.complete {
          return None;
        }
        reply := Some(Complete);
      case Abort =>
        reply := None;
    }

    /** The command loop of main on the lines that come before the input ends or
        falls silent: unless DONE is accepted, no file is left behind. */
    method Serve(commands: seq<Command>) returns (done: bool)
      requires Valid() && BothProper(State())
      modifies this, firmware, manifest
      ensures done <==> Ends(old(State()), commands).Some?
      ensures done ==>
                && firmware.destination == Ends(old(State()), commands).value.firmware.destination
                && manifest.destination == Ends(old(State()), commands).value.manifest.destination
                && firmware.destination.Some? && |firmware.destination.value| == firmware.expectedSize
                && LowerAll(sha256(firmware.destination.value)) == firmware.expectedHash
      ensures !done ==> firmware.destination.None? && manifest.destination.None?
      ensures firmware.part == manifest.part == [] && !firmware.open && !manifest.open
    {
      hide Handle, Ends;
      done := false;
      var i := 0;
      assert commands[0..] == commands;
      while i < |commands|
        invariant i <= |commands| && Ends(State(), commands[i..]) == Ends(old(State()), commands)
        invariant BothProper(State())
      {
        OneCommand(State(), commands[i..]);
        assert commands[i..][1..] == commands[i + 1..];
        var reply := Execute(commands[i]);
        if reply.None? {
          firmware.Cleanup(false);
          manifest.Cleanup(false);
          return;
        }
        if reply == Some(Complete) {
          firmware.Cleanup(true);
          manifest.Cleanup(true);
          return true;
        }
        i := i + 1;
      }
      assert commands[i..] == [];
      NoCommands(State());
      firmware.Cleanup(false);
      manifest.Cleanup(false);
    }

    lemma NoCommands(r: Receiver)
      ensures Ends(r, []) == None
    {
    }

    lemma OneCommand(r: Receiver, commands: seq<Command>)
      requires BothProper(r) && commands != []
      ensures match Handle(r, commands[0])
              case None => Ends(r, commands).None?
              case Some((next, reply)) =>
                BothProper(next) && (reply == Complete ==> next.firmware.complete)
                && Ends(r, commands) == if reply == Complete then Some(next) else Ends(next, commands[1..])
    {
      hide Proper, Handle;
      if Handle(r, commands[0]).Some? {
        HandleKeepsProper(r, commands[0]);
      }
    }

    lemma EndKeeps(o: Object, frames: nat, digest: seq<byte> -> string)
      requires EndObject(o, frames, digest).Some?
      ensures EndObject(o, frames, digest).value.expectedSize == o.expectedSize
      ensures EndObject(o, frames, digest).value.expectedHash == o.expectedHash
    {
    }
  }
}

module UartSender {
  import opened Bytes
  import opened PmosUart
  import opened UartSystem
  import Base64
  import Crc32

  /** The serial device as the sender sees it: what it writes, what it can
      read, and the receiver working at the far end in its own time. */
  class Device {
    /** Neither line loses anything, the far end answers what it was sent before
        the sender reads on, and the deadline leaves time to read what is there. */
    const reliable: bool
    var rx: Receiver
    var stopped: bool
    var toRx: seq<Command>
    var toTx: seq<Reply>
    /** What the sender wrote and what it read, in order. */
    ghost var wrote: seq<Command>
    ghost var heard: seq<Reply>

    function State(tx: Sender): System
      reads this
    {
      System(tx, false, rx, stopped, toRx, toTx)
    }

    constructor (rx: Receiver, stale: seq<Reply>, reliable: bool)
      ensures this.reliable == reliable && this.rx == rx && !stopped && toRx == [] && toTx == stale && wrote == []
      ensures heard == []
    {
      this.reliable := reliable;
      this.rx, stopped, toRx, toTx, wrote, heard := rx, false, [], stale, [], [];
    }

    method Write(c: Command)
      modifies `toRx, `wrote
      ensures toRx == old(toRx) + [c] && wrote == old(wrote) + [c]
    {
      toRx, wrote := toRx + [c], wrote + [c];
    }

    /** The next reply off the line. */
    method Read() returns (reply: Reply)
      requires toTx != []
      modifies `toTx, `heard
      ensures reply == old(toTx)[0] && toTx == old(toTx)[1..] && heard == old(heard) + [reply]
    {
      reply := toTx[0];
      toTx, heard := toTx[1..], heard + [reply];
    }

    /** The far end and the lines act on their own for a while. */
    method Elapse(ghost job: Job, ghost rx0: Receiver, ghost tx: Sender)
      requires Reachable(job, rx0, State(tx))
      modifies `rx, `stopped, `toRx, `toTx
      ensures Reachable(job, rx0, State(tx))
      ensures reliable ==> toRx == [] && |toTx| == |old(toTx)| + |old(toRx)|
      ensures reliable && old(Coming(job, State(tx))) ==> Coming(job, State(tx))
    {
      hide Reachable, Handle, Coming;
      if reliable {
        while toRx != []
          invariant Reachable(job, rx0, State(tx))
          invariant |toTx| + |toRx| == |old(toTx)| + |old(toRx)|
          invariant old(Coming(job, State(tx))) ==> Coming(job, State(tx))
          decreases |toRx|
        {
          Running(job, rx0, State(tx));
          ComingHandled(job, State(tx));
          FarEndReads(job, rx0, tx);
        }
        return;
      }
      var events: seq<Event> :| true;
      for n := 0 to |events|
        invariant Reachable(job, rx0, State(tx))
      {
        match events[n]
        case ReceiverReads =>
          if !stopped && toRx != [] {
            FarEndReads(job, rx0, tx);
          }
        case LoseCommand(i) =>
          StepKeeps(job, rx0, State(tx), events[n]);
          toRx := Remove(toRx, i);
        case LoseReply(i) =>
          StepKeeps(job, rx0, State(tx), events[n]);
          toTx := Remove(toTx, i);
        case _ =>
      }
    }

    /** The receiver takes the next command. */
    method FarEndReads(ghost job: Job, ghost rx0: Receiver, ghost tx: Sender)
      requires Reachable(job, rx0, State(tx)) && !stopped && toRx != []
      modifies `rx, `stopped, `toRx, `toTx
      ensures Reachable(job, rx0, State(tx))
      ensures State(tx) == OnCommand(old(State(tx)).(toRx := old(toRx)[1..]), old(toRx)[0])
      ensures |toRx| == |old(toRx)| - 1 && |toTx| == |old(toTx)| + 1
    {
      hide Reachable, Handle;
      StepKeeps(job, rx0, State(tx), ReceiverReads);
      var s := OnCommand(System(Opening, false, rx, stopped, toRx[1..], toTx), toRx[0]);
      rx, stopped, toRx, toTx := s.rx, s.stopped, s.toRx, s.toTx;
    }
  }

  /** The command whose reply the sender waits for. */
  function Provoking(job: Job, tx: Sender): Command
    requires !tx.Finished?
  {
    match tx
    case Opening => Opener(job)
    case Sending(sequence, _) => Frame(job, sequence)
    case Closing(frames) => End(job.kind, frames)
  }

  /** The awaited reply is on the line, or the one command on the line is about to
      bring it. */
  ghost predicate Coming(job: Job, s: System) {
    && !s.tx.Finished?
    && (Awaited(job, s.tx) in s.toTx
        || (s.toRx == [Provoking(job, s.tx)] && Handle(s.rx, s.toRx[0]).Some?
            && Handle(s.rx, s.toRx[0]).value.1 == Awaited(job, s.tx)))
  }

  lemma Running(job: Job, rx0: Receiver, s: System)
    requires Reachable(job, rx0, s)
    ensures !s.stopped
  {
  }

  lemma ComingHandled(job: Job, s: System)
    requires s.toRx != []
    ensures Coming(job, s) ==> Coming(job, OnCommand(s.(toRx := s.toRx[1..]), s.toRx[0]))
  {
    hide Handle, Awaited, Provoking;
    if Coming(job, s) {
      var next := OnCommand(s.(toRx := s.toRx[1..]), s.toRx[0]);
      if Awaited(job, s.tx) in s.toTx {
        var i :| 0 <= i < |s.toTx| && s.toTx[i] == Awaited(job, s.tx);
        assert next.toTx[i] == Awaited(job, s.tx);
      } else {
        assert next.toTx[|s.toTx|] == Awaited(job, s.tx);
      }
    }
  }

  lemma ComingDropped(job: Job, s: System)
    requires s.toTx != [] && Coming(job, s) && s.toTx[0] != Awaited(job, s.tx)
    ensures Coming(job, s.(toTx := s.toTx[1..]))
  {
    hide Handle, Awaited, Provoking;
    if Awaited(job, s.tx) in s.toTx {
      var i :| 0 <= i < |s.toTx| && s.toTx[i] == Awaited(job, s.tx);
      assert s.toTx[1..][i - 1] == Awaited(job, s.tx);
    }
  }

  /** Alone on the line, what the sender last wrote brings the reply it waits
      for. */
  lemma Provoked(job: Job, rx0: Receiver, s: System)
    requires Reachable(job, rx0, s) && !s.tx.Finished? && s.toRx == [Provoking(job, s.tx)]
    ensures Coming(job, s)
  {
    var o := s.rx.Get(job.kind);
    match s.tx
    case Opening =>
      hide Answers, Start;
    case Sending(sequence, _) =>
      FrameProvokes(job, rx0, s);
    case Closing(frames) =>
      hide Answers, InFlight, Start, EndObject, AppendBlock;
      CloseObject(job, o, frames, s.rx.sha256);
      HandleEnd(s.rx, job.kind, frames, EndObject(o, frames, s.rx.sha256).value);
  }

  lemma FrameProvokes(job: Job, rx0: Receiver, s: System)
    requires Reachable(job, rx0, s) && s.tx.Sending? && s.toRx == [Frame(job, s.tx.sequence)]
    ensures Coming(job, s)
  {
    hide Answers, InFlight, Stored, Start, AppendBlock, Handle, Frame;
    var o, sequence := s.rx.Get(job.kind), s.tx.sequence;
    FrameFields(job, sequence);
    SequenceBelow(job, rx0, sequence);
    if o.nextSequence == sequence {
      AcceptFrame(job, o, sequence);
    } else {
      RepeatFrame(job, o, sequence + 1);
    }
    var c := Frame(job, sequence);
    HandleData(s.rx, c, AppendBlock(o, sequence, c.crc, c.payload).value);
  }

  datatype SendError = TimedOut

  /** The reply that moves the sender on. */
  function Awaited(job: Job, tx: Sender): Reply
    requires !tx.Finished?
  {
    match tx
    case Opening => BeginAck(job.kind)
    case Sending(sequence, _) => Ack(job.kind, sequence)
    case Closing(_) => ObjectOk(job.kind, |job.file|, job.hash)
  }

  /** The state once `sequence` chunks are acknowledged and the sender has
      written what comes next. */
  function Proceed(job: Job, s: System, sequence: nat): System {
    var (tx, c) := Onward(job, sequence);
    s.(tx := tx, toRx := s.toRx + [c])
  }

  function Replied(job: Job, s: System): System
    requires !s.tx.Finished?
  {
    match s.tx
    case Opening => Proceed(job, s, 0)
    case Sending(sequence, _) => Proceed(job, s, sequence + 1)
    case Closing(frames) => s.(tx := Finished(frames))
  }

  lemma ReadStep(job: Job, s: System, reply: Reply)
    requires !s.abandoned && !s.tx.Finished? && s.toTx != [] && s.toTx[0] == reply && reply != Error
    ensures Step(job, s, SenderReads) ==
            if reply == Awaited(job, s.tx) then Replied(job, s.(toTx := s.toTx[1..])) else s.(toTx := s.toTx[1..])
  {
    hide Start, Frame;
  }

  /** wait_serial: reads replies until the wanted one comes or the deadline
      passes; whatever else arrives is dropped. */
  method WaitSerial(device: Device, wanted: Reply, ghost job: Job, ghost rx0: Receiver, ghost tx: Sender)
    returns (came: bool)
    requires !tx.Finished? && Reachable(job, rx0, device.State(tx))
    requires wanted == Awaited(job, tx)
    modifies device
    ensures if came then Reachable(job, rx0, Replied(job, device.State(tx)))
            else Reachable(job, rx0, device.State(tx))
    ensures device.wrote == old(device.wrote) && old(device.heard) <= device.heard
    ensures came <==> wanted in device.heard[|old(device.heard)|..]
    ensures came ==> device.heard[|device.heard| - 1] == wanted
    ensures device.reliable && old(device.toRx) == [Provoking(job, tx)] ==> came && device.toRx == []
  {
    hide Reachable, Awaited, Replied, Coming, Provoking;
    came := false;
    ghost var alone := device.toRx == [Provoking(job, tx)];
    if alone {
      Provoked(job, rx0, device.State(tx));
    }
    var patience: nat :| true;
    if device.reliable {
      patience := |device.toTx| + |device.toRx|;
    }
    while patience > 0
      invariant Reachable(job, rx0, device.State(tx))
      invariant device.wrote == old(device.wrote) && old(device.heard) <= device.heard
      invariant wanted !in device.heard[|old(device.heard)|..]
      invariant device.reliable && alone ==> Coming(job, device.State(tx)) && |device.toTx| + |device.toRx| <= patience
    {
      patience := patience - 1;
      device.Elapse(job, rx0, tx);
      if device.toTx != [] {
        ghost var before, dropped := device.State(tx), device.heard[|old(device.heard)|..];
        NoError(job, rx0, before);
        StepKeeps(job, rx0, before, SenderReads);
        var reply := device.Read();
        ReadStep(job, before, reply);
        assert device.heard[|old(device.heard)|..] == dropped + [reply];
        if reply == wanted {
          return true;
        }
        if device.reliable && alone {
          ComingDropped(job, before);
        }
      } else if device.reliable && alone {
        NothingComing(job, device.State(tx));
      }
    }
    if device.reliable && alone {
      NothingComing(job, device.State(tx));
    }
  }

  lemma NothingComing(job: Job, s: System)
    requires s.toTx == [] && s.toRx == []
    ensures !Coming(job, s)
  {
  }

  function Repeated(c: Command, n: nat): seq<Command> { seq(n, _ => c) }

  lemma OnceMore(c: Command, n: nat)
    ensures Repeated(c, n) + [c] == Repeated(c, n + 1) && Repeated(c, 0) == []
  {
  }

  /** One chunk of send_uart_object: its frame written until it is acknowledged,
      and given up exactly after five writes without its acknowledgement. */
  method SendChunk(device: Device, job: Job, sequence: nat, block: seq<byte>, ghost rx0: Receiver)
    returns (acknowledged: bool, attempt: nat)
    requires block == Block(job, sequence) && Start(job, sequence) < |job.file|
    requires Reachable(job, rx0, Proceed(job, device.State(Opening), sequence))
    modifies device
    ensures if acknowledged then Reachable(job, rx0, Proceed(job, device.State(Opening), sequence + 1))
            else Reachable(job, rx0, device.State(Sending(sequence, attempt)))
    ensures 0 < attempt <= ATTEMPTS && device.wrote == old(device.wrote) + Repeated(Frame(job, sequence), attempt)
    ensures old(device.heard) <= device.heard
    ensures acknowledged <==> Ack(job.kind, sequence) in device.heard[|old(device.heard)|..]
    ensures !acknowledged ==> attempt == ATTEMPTS
    ensures device.reliable && old(device.toRx) == [] ==> acknowledged && attempt == 1 && device.toRx == []
  {
    FrameIs(job, sequence);
    hide Reachable, Start, Block, Base64.Encode, Crc32.Value, Repeated, Proceed, Frame;
    var crc := Crc32.ValueOf(block);
    var frame := Data(job.kind, sequence, crc, Base64.Encode(block));
    acknowledged, attempt := false, 0;
    OnceMore(frame, 0);
    while attempt < ATTEMPTS && !acknowledged
      invariant attempt <= ATTEMPTS && (acknowledged ==> attempt > 0)
      invariant if acknowledged then Reachable(job, rx0, Proceed(job, device.State(Opening), sequence + 1))
                else if attempt == 0 then Reachable(job, rx0, Proceed(job, device.State(Opening), sequence))
                else Reachable(job, rx0, device.State(Sending(sequence, attempt)))
      invariant device.wrote == old(device.wrote) + Repeated(frame, attempt)
      invariant old(device.heard) <= device.heard
      invariant acknowledged <==> Ack(job.kind, sequence) in device.heard[|old(device.heard)|..]
      invariant device.reliable && old(device.toRx) == [] ==>
                  device.toRx == [] && attempt == if acknowledged then 1 else 0
      decreases ATTEMPTS - attempt
    {
      WriteAgain(job, rx0, device.State(Opening), sequence, attempt);
      OnceMore(frame, attempt);
      device.Write(frame);
      attempt := attempt + 1;
      ghost var before := device.heard;
      acknowledged := WaitSerial(device, Ack(job.kind, sequence), job, rx0, Sending(sequence, attempt));
      AcknowledgedIs(job, device.State(Opening), sequence, attempt);
      HeardMore(old(device.heard), before, device.heard);
    }
  }

  lemma FrameIs(job: Job, i: nat)
    ensures Frame(job, i) == Data(job.kind, i, Crc32.Value(Block(job, i)), Base64.Encode(Block(job, i)))
  {
  }

  /** Writing the frame, for the first time or again. */
  lemma WriteAgain(job: Job, rx0: Receiver, s: System, sequence: nat, attempt: nat)
    requires attempt < ATTEMPTS && s.tx == Opening && !s.abandoned && Start(job, sequence) < |job.file|
    requires Reachable(job, rx0, if attempt == 0 then Proceed(job, s, sequence)
                       else s.(tx := Sending(sequence, attempt)))
    ensures Reachable(job, rx0, s.(tx := Sending(sequence, attempt + 1), toRx := s.toRx + [Frame(job, sequence)]))
  {
    hide Reachable, Start, Frame;
    if attempt > 0 {
      StepKeeps(job, rx0, s.(tx := Sending(sequence, attempt)), Timeout);
    }
  }

  lemma AcknowledgedIs(job: Job, s: System, sequence: nat, attempt: nat)
    ensures Replied(job, s.(tx := Sending(sequence, attempt))) == Proceed(job, s, sequence + 1)
  {
    hide Start, Frame;
  }

  lemma HeardMore(a: seq<Reply>, b: seq<Reply>, c: seq<Reply>)
    requires a <= b <= c
    ensures c[|a|..] == b[|a|..] + c[|b|..]
  {
  }

  /** The opening exchange of send_uart_object. */
  method OpenTransfer(device: Device, job: Job) returns (ok: bool)
    requires Startable(job, device.rx) && !device.stopped && device.toRx == []
    requires Answers(job, device.toTx, false, 0, false)
    modifies device
    ensures if ok then Reachable(job, old(device.rx), Proceed(job, device.State(Opening), 0))
            else Reachable(job, old(device.rx), device.State(Opening))
    ensures device.wrote == old(device.wrote) + [Opener(job)] && old(device.heard) <= device.heard
    ensures ok <==> BeginAck(job.kind) in device.heard[|old(device.heard)|..]
    ensures device.reliable ==> ok && device.toRx == []
  {
    hide Reachable, Answers, Startable, Proceed, Replied;
    ghost var rx0 := device.rx;
    InitialInv(job, device.rx, device.toTx);
    device.Write(Opener(job));
    assert device.State(Opening) == Initial(job, rx0, device.toTx);
    ok := WaitSerial(device, BeginAck(job.kind), job, rx0, Opening);
    RepliedTo(job, device.State(Opening));
  }

  /** The first `n` frames, once each. */
  function Frames(job: Job, n: nat): seq<Command> { seq(n, i requires 0 <= i => Frame(job, i)) }

  lemma NextFrame(job: Job, n: nat)
    ensures Frames(job, 0) == [] && Frames(job, n) + Repeated(Frame(job, n), 1) == Frames(job, n + 1)
  {
  }

  /** The read loop of send_uart_object: one chunk after the other. */
  method SendChunks(device: Device, job: Job, ghost rx0: Receiver) returns (sent: bool, frames: nat, attempt: nat)
    requires 0 < job.chunkSize && Reachable(job, rx0, Proceed(job, device.State(Opening), 0))
    modifies device
    ensures device.reliable && old(device.toRx) == [] ==>
              sent && device.toRx == [] && device.wrote == old(device.wrote) + Frames(job, frames)
    ensures sent ==>
              Start(job, frames) == |job.file| && Reachable(job, rx0, Proceed(job, device.State(Opening), frames))
    ensures !sent ==> Reachable(job, rx0, device.State(Sending(frames, attempt))) && attempt == ATTEMPTS
  {
    hide Reachable, Start, Block, Proceed, Frame, Frames, Repeated;
    frames, attempt := 0, 0;
    var position: nat := 0;
    StartOfFirst(job);
    NextFrame(job, 0);
    while position < |job.file|
      invariant position == Start(job, frames)
      invariant Reachable(job, rx0, Proceed(job, device.State(Opening), frames))
      invariant device.reliable && old(device.toRx) == [] ==>
                  device.toRx == [] && device.wrote == old(device.wrote) + Frames(job, frames)
      decreases |job.file| - position
    {
      BlockAt(job, frames);
      NextStart(job, frames);
      NextFrame(job, frames);
      var end := Min(position + job.chunkSize, |job.file|);
      sent, attempt := SendChunk(device, job, frames, job.file[position..end], rx0);
      if !sent {
        return;
      }
      frames := frames + 1;
      position := end;
    }
    sent := true;
  }

  /** The closing exchange of send_uart_object. */
  method CloseTransfer(device: Device, job: Job, frames: nat, ghost rx0: Receiver) returns (ok: bool)
    requires Start(job, frames) == |job.file|
    requires Reachable(job, rx0, Proceed(job, device.State(Opening), frames))
    modifies device
    ensures Reachable(job, rx0, device.State(if ok then Finished(frames) else Closing(frames)))
    ensures device.wrote == old(device.wrote) + [End(job.kind, frames)] && old(device.heard) <= device.heard
    ensures ok <==> ObjectOk(job.kind, |job.file|, job.hash) in device.heard[|old(device.heard)|..]
    ensures device.reliable && old(device.toRx) == [] ==> ok
  {
    hide Reachable, Proceed, Replied;
    ProceedCloses(job, device.State(Opening), frames);
    hide Start;
    device.Write(End(job.kind, frames));
    ok := WaitSerial(device, ObjectOk(job.kind, |job.file|, job.hash), job, rx0, Closing(frames));
    RepliedTo(job, device.State(Closing(frames)));
  }

  /** send_uart_object.  It either raises an exception or leaves exactly the
      file at the receiver's destination; in both cases the receiver is still
      in a reachable state of the protocol. */
  method SendUartObject(device: Device, job: Job) returns (r: Result<nat, SendError>, ghost tx: Sender)
    requires Startable(job, device.rx) && !device.stopped && device.toRx == []
    requires Answers(job, device.toTx, false, 0, false)
    modifies device
    ensures Outcome(job, old(device.rx), device.State(tx), r)
    // a line that loses nothing carries every frame once
    ensures device.reliable ==>
              r.Ok? && device.wrote == old(device.wrote) + [Opener(job)] + Frames(job, r.value)
              + [End(job.kind, r.value)]
  {
    ghost var rx0 := device.rx;
    assert 0 < job.chunkSize;
    hide Reachable, Answers, Startable, Start, Proceed, Frames;
    var begun := OpenTransfer(device, job);
    if !begun {
      return Err(TimedOut), Opening;
    }
    var sent, frames, attempt := SendChunks(device, job, rx0);
    if !sent {
      return Err(TimedOut), Sending(frames, attempt);
    }
    var closed := CloseTransfer(device, job, frames, rx0);
    if !closed {
      return Err(TimedOut), Closing(frames);
    }
    tx := Finished(frames);
    FinishedRest(job, rx0, device.State(tx));
    r := Ok(frames);
  }

  /** A normal return means the whole file is at the destination and counted
      in full; an exception leaves the protocol in a reachable state. */
  ghost predicate Outcome(job: Job, rx0: Receiver, s: System, r: Result<nat, SendError>) {
    && Reachable(job, rx0, s)
    && (r.Ok? ==> s.tx == Finished(r.value) && Start(job, r.value) == |job.file|
                  && s.rx.Get(job.kind).destination == Some(job.file))
    && (r.Err? ==> !s.tx.Finished? && (s.tx.Sending? ==> s.tx.attempt == ATTEMPTS))
  }

  lemma RepliedTo(job: Job, s: System)
    ensures s.tx == Opening ==> Replied(job, s) == Proceed(job, s, 0)
    ensures s.tx.Closing? ==> Replied(job, s) == s.(tx := Finished(s.tx.frames))
  {
  }

  lemma ProceedCloses(job: Job, s: System, sequence: nat)
    requires Start(job, sequence) == |job.file|
    ensures Proceed(job, s, sequence) == s.(tx := Closing(sequence), toRx := s.toRx + [End(job.kind, sequence)])
  {
  }

  lemma StartOfFirst(job: Job)
    ensures Start(job, 0) == 0
  {
  }

  lemma BlockAt(job: Job, i: nat)
    ensures var p := Start(job, i); Block(job, i) == job.file[p..Min(p + job.chunkSize, |job.file|)]
  {
  }

  lemma NextStart(job: Job, i: nat)
    ensures Start(job, i + 1) == Min(Start(job, i) + job.chunkSize, |job.file|)
  {
  }
}
