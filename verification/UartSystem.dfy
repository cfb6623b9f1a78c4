/** PMOSUART/1 end to end: send_uart_object of serial-runner.py and the receiver
    of fwserialrx.c, joined by two first-in-first-out lines that may lose or
    delay whole commands and replies. */
module UartSystem {
  import opened Bytes
  import opened PmosUart
  import Base64
  import Crc32

  const ATTEMPTS := 5

  /** One object to send; `hash` is the sender's digest of the file. */
  datatype Job = Job(kind: Kind, file: seq<byte>, chunkSize: nat, hash: string, name: string)

  /** Where send_uart_object stands. */
  datatype Sender =
    | Opening
    | Sending(sequence: nat, attempt: nat)
    | Closing(frames: nat)
    | Finished(total: nat)

  /** `stopped`: the receiver reported an error and left its loop;
      `abandoned`: the sender raised an exception. */
  datatype System = System(
    tx: Sender,
    abandoned: bool,
    rx: Receiver,
    stopped: bool,
    toRx: seq<Command>,
    toTx: seq<Reply>)

  datatype Event = Timeout | SenderReads | ReceiverReads | LoseCommand(i: nat) | LoseReply(i: nat)

  // ------------------------------------------------------------------ chunks

  /** Where chunk `i` of the file starts. */
  function Start(job: Job, i: nat): (p: nat)
    ensures p <= |job.file|
  {
    if i == 0 then 0 else Min(Start(job, i - 1) + job.chunkSize, |job.file|)
  }

  function Block(job: Job, i: nat): seq<byte> {
    job.file[Start(job, i)..Min(Start(job, i) + job.chunkSize, |job.file|)]
  }

  function Frame(job: Job, i: nat): Command {
    Data(job.kind, i, Crc32.Value(Block(job, i)), Base64.Encode(Block(job, i)))
  }

  function Opener(job: Job): Command {
    Begin(job.kind, |job.file|, job.hash, job.name)
  }

  // ------------------------------------------------------------------- steps

  /** What the sender does once `sequence` chunks are acknowledged. */
  function Onward(job: Job, sequence: nat): (Sender, Command) {
    if Start(job, sequence) == |job.file| then (Closing(sequence), End(job.kind, sequence))
    else (Sending(sequence, 1), Frame(job, sequence))
  }

  function Remove<T>(s: seq<T>, i: nat): seq<T> {
    if i < |s| then s[..i] + s[i + 1..] else s
  }

  function OnTimeout(job: Job, s: System): System {
    if s.tx.Sending? && s.tx.attempt < ATTEMPTS
    then s.(tx := Sending(s.tx.sequence, s.tx.attempt + 1), toRx := s.toRx + [Frame(job, s.tx.sequence)])
    else s.(abandoned := true)
  }

  function OnReply(job: Job, s: System, r: Reply): System {
    if r == Error then s.(abandoned := true)
    else if s.tx == Opening && r == BeginAck(job.kind)
    then var (tx, c) := Onward(job, 0); s.(tx := tx, toRx := s.toRx + [c])
    else if s.tx.Sending? && r == Ack(job.kind, s.tx.sequence)
    then var (tx, c) := Onward(job, s.tx.sequence + 1); s.(tx := tx, toRx := s.toRx + [c])
    else if s.tx.Closing? && r == ObjectOk(job.kind, |job.file|, job.hash)
    then s.(tx := Finished(s.tx.frames))
    else s
  }

  function OnCommand(s: System, c: Command): System {
    match Handle(s.rx, c)
    case None => s.(stopped := true, toTx := s.toTx + [Error])
    case Some((rx, reply)) => s.(rx := rx, toTx := s.toTx + [reply])
  }

  function Step(job: Job, s: System, e: Event): System {
    match e
    case Timeout => if s.abandoned || s.tx.Finished? then s else OnTimeout(job, s)
    case SenderReads =>
      if s.abandoned || s.tx.Finished? || s.toTx == [] then s
      else OnReply(job, s.(toTx := s.toTx[1..]), s.toTx[0])
    case ReceiverReads =>
      if s.stopped || s.toRx == [] then s
      else OnCommand(s.(toRx := s.toRx[1..]), s.toRx[0])
    case LoseCommand(i) => s.(toRx := Remove(s.toRx, i))
    case LoseReply(i) => s.(toTx := Remove(s.toTx, i))
  }

  function Run(job: Job, s: System, events: seq<Event>): System {
    if |events| == 0 then s else Step(job, Run(job, s, events[..|events| - 1]), events[|events| - 1])
  }

  // --------------------------------------------------------------- invariant

  /** A transfer the receiver is willing to start: chunks of at most 3072
      bytes, a file within the limit, and one digest for both ends. */
  predicate Startable(job: Job, rx: Receiver) {
    && 0 < job.chunkSize <= BLOCK_LIMIT
    && 0 < |job.file| <= rx.Limit(job.kind) && |job.file| < U32_LIMIT
    && ValidHash(job.hash) && LowerAll(job.hash) == job.hash == LowerAll(rx.sha256(job.file))
    && ValidName(job.name)
    && rx.active.None?
    && !rx.Get(job.kind).started && !rx.Get(job.kind).complete && !rx.Get(job.kind).open
  }

  function Initial(job: Job, rx: Receiver, stale: seq<Reply>): System {
    System(Opening, false, rx, false, [Opener(job)], stale)
  }

  /** The receiver's object after it stored the first `next` chunks. */
  predicate Stored(job: Job, o: Object, next: nat) {
    && o.open && o.started && !o.complete
    && o.expectedSize == |job.file| && o.expectedHash == job.hash
    && o.part == job.file[..Start(job, next)] && o.received == Start(job, next)
    && o.nextSequence == next
    && (next > 0 ==> o.lastSequence == next - 1 && o.lastCrc == Crc32.Value(Block(job, next - 1)))
    && (next == 0 ==> o.lastSequence == U32_LIMIT - 1)
  }

  predicate Delivered(job: Job, o: Object, total: nat) {
    o.complete && !o.open && o.destination == Some(job.file) && o.nextSequence == total
  }

  /** Frames in flight: in order, none older than the last one stored, none
      newer than `newest`; the closing command can only be the last. */
  ghost predicate InFlight(job: Job, line: seq<Command>, next: nat, newest: nat, closing: bool) {
    && (forall p :: 0 <= p < |line| ==>
          || (line[p].Data? && line[p] == Frame(job, line[p].sequence) && next <= line[p].sequence + 1 <= newest + 1)
          || (closing && p == |line| - 1 && line[p] == End(job.kind, next)))
    && (forall p, q :: 0 <= p < q < |line| && line[p].Data? && line[q].Data? ==> line[p].sequence <= line[q].sequence)
  }

  /** No reply of this object runs ahead of what the receiver has done. */
  predicate Answers(job: Job, line: seq<Reply>, begun: bool, next: nat, complete: bool) {
    forall p :: 0 <= p < |line| ==>
      && line[p] != Error
      && (line[p] == BeginAck(job.kind) ==> begun)
      && (line[p].Ack? && line[p].kind == job.kind ==> line[p].sequence < next)
      && (line[p].ObjectOk? && line[p].kind == job.kind ==> complete)
  }

  ghost predicate Inv(job: Job, rx0: Receiver, s: System) {
    var o := s.rx.Get(job.kind);
    && !s.stopped
    && Start(job, 0) == 0
    && match s.tx
       case Opening =>
         if s.rx == rx0
         then (s.toRx == [Opener(job)] || s.toRx == []) && Answers(job, s.toTx, false, 0, false)
         else s.rx == rx0.Set(job.kind, o).(active := Some(job.kind)) && Stored(job, o, 0)
              && s.toRx == [] && Answers(job, s.toTx, true, 0, false)
       case Sending(sequence, attempt) =>
         && 1 <= attempt <= ATTEMPTS
         && s.rx == rx0.Set(job.kind, o).(active := Some(job.kind))
         && o.nextSequence in {sequence, sequence + 1} && Stored(job, o, o.nextSequence)
         && Start(job, sequence) < |job.file|
         && InFlight(job, s.toRx, o.nextSequence, sequence, false)
         && Answers(job, s.toTx, true, o.nextSequence, false)
       case Closing(frames) =>
         && Start(job, frames) == |job.file| && frames <= |job.file|
         && if s.rx.active.Some?
            then s.rx == rx0.Set(job.kind, o).(active := Some(job.kind)) && Stored(job, o, frames) && 0 < frames
                 && InFlight(job, s.toRx, frames, frames - 1, true)
                 && Answers(job, s.toTx, true, frames, false)
            else s.rx == rx0.Set(job.kind, o) && Delivered(job, o, frames) && s.toRx == []
                 && Answers(job, s.toTx, true, frames, true)
       case Finished(total) =>
         && Start(job, total) == |job.file|
         && s.rx == rx0.Set(job.kind, o) && Delivered(job, o, total) && s.toRx == []
         && Answers(job, s.toTx, true, total, true)
  }

  // ----------------------------------------------- one command at the receiver

  lemma {:induction false} StartLower(job: Job, i: nat)
    requires 0 < job.chunkSize
    ensures Min(i, |job.file|) <= Start(job, i)
  {
    if i > 0 {
      StartLower(job, i - 1);
    }
  }

  lemma BlockShape(job: Job, i: nat)
    requires 0 < job.chunkSize <= BLOCK_LIMIT && Start(job, i) < |job.file|
    ensures 0 < |Block(job, i)| <= BLOCK_LIMIT
    ensures Start(job, i + 1) == Start(job, i) + |Block(job, i)|
    ensures job.file[..Start(job, i + 1)] == job.file[..Start(job, i)] + Block(job, i)
    ensures 0 < |Base64.Encode(Block(job, i))| <= PAYLOAD_LIMIT
  {
    hide Base64.Digits;
  }

  lemma AppendsNext(o: Object, i: nat, crc: nat, payload: string, block: seq<byte>)
    requires o.open && o.nextSequence == i && i + 1 < U32_LIMIT
    requires 0 < |payload| <= PAYLOAD_LIMIT && Base64.UartDecode(payload, BLOCK_LIMIT) == Some(block)
    requires block != [] && o.received + |block| <= o.expectedSize && Crc32.Value(block) == crc
    ensures AppendBlock(o, i, crc, payload)
         == Some(o.(received := o.received + |block|, lastSequence := i, lastCrc := crc,
                    nextSequence := i + 1, part := o.part + block))
  {
    hide Base64.UartDecode, Crc32.Value;
  }

  /** The next frame is stored. */
  lemma AcceptFrame(job: Job, o: Object, i: nat)
    requires 0 < job.chunkSize <= BLOCK_LIMIT && |job.file| < U32_LIMIT
    requires Stored(job, o, i) && Start(job, i) < |job.file|
    ensures var f := Frame(job, i);
            var o' := AppendBlock(o, i, f.crc, f.payload);
            o'.Some? && Stored(job, o'.value, i + 1)
            && o'.value.destination == o.destination && o'.value.name == o.name
  {
    hide Base64.UartDecode, Base64.Encode, AppendBlock, Start, Block;
    StartLower(job, i);
    BlockShape(job, i);
    var block := Block(job, i);
    Base64.UartInvertsEncode(block, BLOCK_LIMIT);
    AppendsNext(o, i, Crc32.Value(block), Base64.Encode(block), block);
  }

  /** A repeat of the last frame stored changes nothing. */
  lemma RepeatFrame(job: Job, o: Object, next: nat)
    requires |job.file| < U32_LIMIT && 0 < next <= |job.file| && Stored(job, o, next)
    ensures var f := Frame(job, next - 1);
            AppendBlock(o, next - 1, f.crc, f.payload) == Some(o)
  {
    hide Start, Block, Base64.Encode;
  }

  lemma CloseObject(job: Job, o: Object, frames: nat, sha256: seq<byte> -> string)
    requires Stored(job, o, frames) && Start(job, frames) == |job.file|
    requires LowerAll(sha256(job.file)) == job.hash
    ensures var o' := EndObject(o, frames, sha256);
            o'.Some? && Delivered(job, o'.value, frames)
            && o'.value.expectedSize == |job.file| && o'.value.expectedHash == job.hash
  {
    hide Start, LowerAll;
    assert job.file[..|job.file|] == job.file;
  }

  // -------------------------------------------------------- every step keeps it

  /** Everything a transfer assumes from the outset. */
  ghost predicate Reachable(job: Job, rx0: Receiver, s: System) {
    Startable(job, rx0) && Inv(job, rx0, s)
  }

  lemma InitialInv(job: Job, rx: Receiver, stale: seq<Reply>)
    requires Startable(job, rx) && Answers(job, stale, false, 0, false)
    ensures Reachable(job, rx, Initial(job, rx, stale))
  {
  }

  lemma AnswersTail(job: Job, line: seq<Reply>, begun: bool, next: nat, complete: bool, i: nat)
    requires Answers(job, line, begun, next, complete) && i < |line|
    ensures Answers(job, Remove(line, i), begun, next, complete)
    ensures i == 0 ==> line[1..] == Remove(line, 0)
  {
  }

  lemma InFlightRemove(job: Job, line: seq<Command>, next: nat, newest: nat, closing: bool, i: nat)
    requires InFlight(job, line, next, newest, closing) && i < |line|
    ensures InFlight(job, Remove(line, i), next, newest, closing)
    ensures i == 0 ==> line[1..] == Remove(line, 0)
  {
    hide Frame;
    var r := Remove(line, i);
    forall p | 0 <= p < |r| ensures r[p] == line[if p < i then p else p + 1] {}
  }

  lemma LossKeeps(job: Job, rx0: Receiver, s: System, i: nat)
    requires Reachable(job, rx0, s)
    ensures Reachable(job, rx0, Step(job, s, LoseCommand(i)))
    ensures Reachable(job, rx0, Step(job, s, LoseReply(i)))
  {
    hide InFlight, Answers, Stored, Delivered, Start, Startable;
    if i < |s.toRx| {
      if s.tx.Sending? {
        InFlightRemove(job, s.toRx, s.rx.Get(job.kind).nextSequence, s.tx.sequence, false, i);
      } else if s.tx.Closing? && s.rx.active.Some? {
        InFlightRemove(job, s.toRx, s.tx.frames, s.tx.frames - 1, true, i);
      }
    }
    if i < |s.toTx| {
      forall begun, next, complete | Answers(job, s.toTx, begun, next, complete)
        ensures Answers(job, Remove(s.toTx, i), begun, next, complete)
      {
        AnswersTail(job, s.toTx, begun, next, complete, i);
      }
    }
  }

  lemma TimeoutKeeps(job: Job, rx0: Receiver, s: System)
    requires Reachable(job, rx0, s)
    ensures Reachable(job, rx0, Step(job, s, Timeout))
  {
    hide Answers, Stored, Delivered, Start, Startable;
    if !s.abandoned && s.tx.Sending? && s.tx.attempt < ATTEMPTS {
      InFlightAppend(job, s.toRx, s.rx.Get(job.kind).nextSequence, s.tx.sequence, s.tx.sequence, false);
    }
    hide InFlight;
  }

  /** Writing the frame `newest` keeps the line in order. */
  lemma InFlightAppend(job: Job, line: seq<Command>, next: nat, was: nat, newest: nat, closing: bool)
    requires InFlight(job, line, next, was, false) && was <= newest && next <= newest + 1
    ensures InFlight(job, line + [Frame(job, newest)], next, newest, closing)
  {
    hide Block;
  }

  lemma InFlightClose(job: Job, line: seq<Command>, next: nat, was: nat)
    requires InFlight(job, line, next, was, false) && was + 1 == next
    ensures InFlight(job, line + [End(job.kind, next)], next, was, true)
  {
    hide Frame;
  }

  lemma InFlightNothing(job: Job, next: nat, newest: nat)
    ensures InFlight(job, [], next, newest, false)
  {
  }

  /** The sender takes a reply off the line. */
  lemma SenderReadsKeeps(job: Job, rx0: Receiver, s: System)
    requires Reachable(job, rx0, s)
    ensures Reachable(job, rx0, Step(job, s, SenderReads))
  {
    hide Reachable, InFlight, Answers, Stored, Delivered, Frame, Start;
    if s.abandoned || s.tx.Finished? || s.toTx == [] {
      return;
    }
    var r, t := s.toTx[0], s.(toTx := s.toTx[1..]);
    LossKeeps(job, rx0, s, 0);
    assert Remove(s.toTx, 0) == s.toTx[1..];
    if s.tx == Opening && r == BeginAck(job.kind) {
      OpeningAnswered(job, rx0, s);
    } else if s.tx.Sending? && r == Ack(job.kind, s.tx.sequence) {
      SendingAnswered(job, rx0, s);
    } else if s.tx.Closing? && r == ObjectOk(job.kind, |job.file|, job.hash) {
      ClosingAnswered(job, rx0, s);
    } else if r == Error {
      NoError(job, rx0, s);
    }
  }

  lemma NoError(job: Job, rx0: Receiver, s: System)
    requires Reachable(job, rx0, s) && s.toTx != []
    ensures s.toTx[0] != Error
  {
    hide InFlight, Stored, Delivered, Start, Startable;
  }

  lemma OpeningAnswered(job: Job, rx0: Receiver, s: System)
    requires Reachable(job, rx0, s) && s.toTx != [] && s.toTx[0] == BeginAck(job.kind) && s.tx == Opening
    requires Reachable(job, rx0, s.(toTx := s.toTx[1..]))
    ensures Reachable(job, rx0, OnReply(job, s.(toTx := s.toTx[1..]), s.toTx[0]))
  {
    hide InFlight, Answers, Delivered, Frame;
    InFlightNothing(job, 0, 0);
    InFlightAppend(job, [], 0, 0, 0, false);
    AnswersFirst(job, s);
  }

  lemma SendingAnswered(job: Job, rx0: Receiver, s: System)
    requires Reachable(job, rx0, s) && s.toTx != [] && s.tx.Sending? && s.toTx[0] == Ack(job.kind, s.tx.sequence)
    requires Reachable(job, rx0, s.(toTx := s.toTx[1..]))
    ensures Reachable(job, rx0, OnReply(job, s.(toTx := s.toTx[1..]), s.toTx[0]))
  {
    hide InFlight, Stored, Delivered, Start, Frame, Startable;
    var sequence := s.tx.sequence;
    assert s.rx.Get(job.kind).nextSequence == sequence + 1 by { AckMeansStored(job, rx0, s); }
    hide Answers;
    SequenceBelow(job, rx0, sequence);
    InFlightAppend(job, s.toRx, sequence + 1, sequence, sequence + 1, false);
    InFlightClose(job, s.toRx, sequence + 1, sequence);
  }

  lemma AckMeansStored(job: Job, rx0: Receiver, s: System)
    requires Reachable(job, rx0, s) && s.toTx != [] && s.tx.Sending? && s.toTx[0] == Ack(job.kind, s.tx.sequence)
    ensures s.rx.Get(job.kind).nextSequence == s.tx.sequence + 1
  {
    hide InFlight, Stored, Delivered, Start, Startable;
    assert Answers(job, s.toTx, true, s.rx.Get(job.kind).nextSequence, false);
  }

  lemma SequenceBelow(job: Job, rx0: Receiver, sequence: nat)
    requires Startable(job, rx0) && Start(job, sequence) < |job.file|
    ensures sequence < |job.file|
  {
    StartLower(job, sequence);
  }

  lemma ClosingAnswered(job: Job, rx0: Receiver, s: System)
    requires Reachable(job, rx0, s) && s.toTx != [] && s.tx.Closing?
    requires s.toTx[0] == ObjectOk(job.kind, |job.file|, job.hash)
    requires Reachable(job, rx0, s.(toTx := s.toTx[1..]))
    ensures Reachable(job, rx0, OnReply(job, s.(toTx := s.toTx[1..]), s.toTx[0]))
  {
    hide InFlight, Stored, Start, Delivered, Startable;
    assert s.rx.active.None?;
  }

  lemma AnswersFirst(job: Job, s: System)
    requires s.toTx != [] && s.toTx[0] == BeginAck(job.kind)
    ensures !Answers(job, s.toTx, false, 0, false)
  {
  }

  /** The receiver takes a command off the line: it never reports an error. */
  lemma ReceiverReadsKeeps(job: Job, rx0: Receiver, s: System)
    requires Reachable(job, rx0, s)
    ensures Reachable(job, rx0, Step(job, s, ReceiverReads))
  {
    if s.toRx == [] {
      return;
    }
    match s.tx
    case Opening => ReceiverBegins(job, rx0, s);
    case Sending(_, _) => ReceiverStores(job, rx0, s);
    case Closing(_) => ReceiverCloses(job, rx0, s);
    case Finished(_) =>
  }

  lemma AnswersAppend(job: Job, line: seq<Reply>, begun: bool, next: nat, complete: bool, r: Reply,
                      begun': bool, next': nat, complete': bool)
    requires Answers(job, line, begun, next, complete)
    requires (begun ==> begun') && next <= next' && (complete ==> complete')
    requires Answers(job, [r], begun', next', complete')
    ensures Answers(job, line + [r], begun', next', complete')
  {
  }

  lemma ReceiverBegins(job: Job, rx0: Receiver, s: System)
    requires Reachable(job, rx0, s) && s.tx == Opening && s.toRx != []
    ensures Reachable(job, rx0, Step(job, s, ReceiverReads))
  {
    hide ValidHash, ValidName, LowerAll, Answers;
    var reply := BeginAck(job.kind);
    assert Answers(job, [reply], true, 0, false) by { SingleAnswers(job, 0); }
    AnswersAppend(job, s.toTx, false, 0, false, reply, true, 0, false);
    assert job.file[..0] == [];
  }

  lemma SingleAnswers(job: Job, sequence: nat)
    ensures Answers(job, [BeginAck(job.kind)], true, 0, false)
    ensures Answers(job, [Ack(job.kind, sequence)], true, sequence + 1, false)
    ensures forall size, hash :: Answers(job, [ObjectOk(job.kind, size, hash)], true, sequence, true)
  {
  }

  /** The oldest frame in flight is the last one stored or the next one. */
  lemma FirstInFlight(job: Job, line: seq<Command>, next: nat, newest: nat)
    requires InFlight(job, line, next, newest, false) && line != [] && newest <= next
    ensures line[0].Data? && line[0] == Frame(job, line[0].sequence)
    ensures line[0].sequence + 1 == next || (line[0].sequence == next && next == newest)
  {
    hide Frame;
  }

  lemma HandleData(r: Receiver, c: Command, o: Object)
    requires c.Data? && r.active == Some(c.kind)
    requires AppendBlock(r.Get(c.kind), c.sequence, c.crc, c.payload) == Some(o)
    ensures Handle(r, c) == Some((r.Set(c.kind, o), Ack(c.kind, c.sequence)))
  {
    hide AppendBlock;
  }

  lemma ReceiverStores(job: Job, rx0: Receiver, s: System)
    requires Reachable(job, rx0, s) && s.tx.Sending? && s.toRx != []
    ensures Reachable(job, rx0, Step(job, s, ReceiverReads))
  {
    hide InFlight, Answers, Stored, Start, Block, AppendBlock, Handle;
    var o, sequence := s.rx.Get(job.kind), s.tx.sequence;
    var next, c := o.nextSequence, s.toRx[0];
    FirstInFlight(job, s.toRx, next, sequence);
    StartLower(job, sequence);
    SingleAnswers(job, c.sequence);
    if c.sequence == next {
      AcceptFrame(job, o, next);
      var o' := AppendBlock(o, next, c.crc, c.payload).value;
      assert o'.nextSequence == next + 1 by { StoredNext(job, o', next + 1); }
      HandleData(s.rx, c, o');
      InFlightLater(job, s.toRx, next, sequence);
      AnswersAppend(job, s.toTx, true, next, false, Ack(job.kind, next), true, next + 1, false);
    } else {
      RepeatFrame(job, o, next);
      HandleData(s.rx, c, o);
      InFlightRemove(job, s.toRx, next, sequence, false, 0);
      AnswersAppend(job, s.toTx, true, next, false, Ack(job.kind, next - 1), true, next, false);
    }
    hide Startable;
  }

  lemma StoredNext(job: Job, o: Object, next: nat)
    requires Stored(job, o, next)
    ensures o.nextSequence == next
  {
  }

  /** Behind the frame `next` come only frames at least as new. */
  lemma InFlightLater(job: Job, line: seq<Command>, next: nat, newest: nat)
    requires InFlight(job, line, next, newest, false) && line != [] && line[0].Data? && line[0].sequence == next
    ensures InFlight(job, line[1..], next + 1, newest, false)
  {
    hide Frame;
  }

  lemma LastInFlight(job: Job, line: seq<Command>, frames: nat)
    requires 0 < frames && InFlight(job, line, frames, frames - 1, true) && line != []
    ensures (line == [End(job.kind, frames)])
         || (line[0] == Frame(job, frames - 1) && InFlight(job, line[1..], frames, frames - 1, true))
  {
    hide Frame;
    if line[0].Data? {
      InFlightRemove(job, line, frames, frames - 1, true, 0);
    }
  }

  lemma HandleEnd(r: Receiver, kind: Kind, frames: nat, o: Object)
    requires r.active == Some(kind) && EndObject(r.Get(kind), frames, r.sha256) == Some(o)
    ensures Handle(r, End(kind, frames))
         == Some((r.Set(kind, o).(active := None), ObjectOk(kind, o.expectedSize, o.expectedHash)))
  {
    hide EndObject;
  }

  lemma ReceiverCloses(job: Job, rx0: Receiver, s: System)
    requires Reachable(job, rx0, s) && s.tx.Closing? && s.toRx != []
    ensures Reachable(job, rx0, Step(job, s, ReceiverReads))
  {
    hide InFlight, Answers, Stored, Delivered, Start, Frame, AppendBlock, EndObject, Handle;
    var o, frames := s.rx.Get(job.kind), s.tx.frames;
    LastInFlight(job, s.toRx, frames);
    FrameFields(job, frames - 1);
    if s.toRx[0].End? {
      SingleAnswers(job, frames);
      CloseObject(job, o, frames, s.rx.sha256);
      assert s.toRx[1..] == [];
      HandleEnd(s.rx, job.kind, frames, EndObject(o, frames, s.rx.sha256).value);
      AnswersAppend(job, s.toTx, true, frames, false, ObjectOk(job.kind, |job.file|, job.hash), true, frames, true);
    } else {
      SingleAnswers(job, frames - 1);
      RepeatFrame(job, o, frames);
      HandleData(s.rx, s.toRx[0], o);
      AnswersAppend(job, s.toTx, true, frames, false, Ack(job.kind, frames - 1), true, frames, false);
    }
  }

  lemma FrameFields(job: Job, i: nat)
    ensures var c := Frame(job, i); c.Data? && c.kind == job.kind && c.sequence == i
  {
  }

  lemma StepKeeps(job: Job, rx0: Receiver, s: System, e: Event)
    requires Reachable(job, rx0, s)
    ensures Reachable(job, rx0, Step(job, s, e))
  {
    hide Reachable, Step;
    match e
    case Timeout => TimeoutKeeps(job, rx0, s);
    case SenderReads => SenderReadsKeeps(job, rx0, s);
    case ReceiverReads => ReceiverReadsKeeps(job, rx0, s);
    case LoseCommand(i) => LossKeeps(job, rx0, s, i);
    case LoseReply(i) => LossKeeps(job, rx0, s, i);
  }

  /** The invariant holds after every run. */
  lemma {:induction false} RunKeeps(job: Job, rx0: Receiver, s: System, events: seq<Event>)
    requires Reachable(job, rx0, s)
    ensures Reachable(job, rx0, Run(job, s, events))
    decreases |events|
  {
    hide Reachable, Step;
    if |events| > 0 {
      RunKeeps(job, rx0, s, events[..|events| - 1]);
      StepKeeps(job, rx0, Run(job, s, events[..|events| - 1]), events[|events| - 1]);
    }
  }

  // ---------------------------------------------------------------- theorems

  /** What every reachable state promises. */
  predicate Safe(job: Job, s: System) {
    var o := s.rx.Get(job.kind);
    && !s.stopped
    && (o.open ==> o.part == job.file[..Start(job, o.nextSequence)])
    && (s.tx.Sending? ==> o.open && o.nextSequence in {s.tx.sequence, s.tx.sequence + 1})
    && (s.tx.Finished? ==> o.complete && s.rx.active.None? && s.toRx == [])
    && (o.complete ==> o.destination == Some(job.file))
    && (forall p :: 0 <= p < |s.toRx| && s.toRx[p].End? ==> Matched(job, o, s.toRx[p]))
  }

  /** An END on the line carries the receiver's own count of frames, and the receiver
      has the whole file. */
  predicate Matched(job: Job, o: Object, c: Command)
    requires c.End?
  {
    c.kind == job.kind && c.frames == o.nextSequence && o.received == o.expectedSize && o.open && o.part == job.file
  }

  lemma ReachableSafe(job: Job, rx0: Receiver, s: System)
    requires Reachable(job, rx0, s)
    ensures Safe(job, s)
  {
    assert job.file[..0] == [];
    EndsMatch(job, rx0, s);
    hide InFlight, Answers, Block, LowerAll, ValidHash, ValidName, Start, Matched;
  }

  lemma EndsMatch(job: Job, rx0: Receiver, s: System)
    requires Reachable(job, rx0, s)
    ensures forall p :: 0 <= p < |s.toRx| && s.toRx[p].End? ==> Matched(job, s.rx.Get(job.kind), s.toRx[p])
  {
    hide Answers, Block, Startable, Start, Frame;
    assert job.file[..|job.file|] == job.file;
  }

  /** Whatever the lines lose or delay: the receiver never gives up, its part
      file is the first `nextSequence` chunks of the file, that number is the
      sender's sequence or one more, and a sender that finished has left the
      whole file at the destination. */
  lemma TransferSafe(job: Job, rx: Receiver, stale: seq<Reply>, events: seq<Event>)
    requires Startable(job, rx) && Answers(job, stale, false, 0, false)
    ensures Safe(job, Run(job, Initial(job, rx, stale), events))
  {
    hide Reachable, Safe, Run, Startable, Answers;
    InitialInv(job, rx, stale);
    RunKeeps(job, rx, Initial(job, rx, stale), events);
    ReachableSafe(job, rx, Run(job, Initial(job, rx, stale), events));
  }

  /** Only commands and replies of this object are on the lines. */
  predicate Own(job: Job, s: System) {
    OwnCommands(job, s.toRx) && OwnReplies(job, s.toTx)
  }

  lemma OwnKeeps(job: Job, s: System, e: Event)
    requires Own(job, s)
    ensures Own(job, Step(job, s, e))
  {
    match e
    case Timeout => OwnTimeout(job, s);
    case SenderReads =>
      if s.toTx != [] {
        OwnReply(job, s.(toTx := s.toTx[1..]), s.toTx[0]);
      }
    case ReceiverReads =>
      if s.toRx != [] {
        OwnCommand(job, s.(toRx := s.toRx[1..]), s.toRx[0]);
      }
    case LoseCommand(i) =>
    case LoseReply(i) =>
    hide Start, Block, OnTimeout, OnReply, OnCommand;
  }

  predicate OwnCommands(job: Job, line: seq<Command>) {
    forall p :: 0 <= p < |line| ==> OwnCommandOf(job, line[p])
  }

  predicate OwnReplies(job: Job, line: seq<Reply>) {
    forall p :: 0 <= p < |line| ==> OwnReplyOf(job, line[p])
  }

  predicate OwnCommandOf(job: Job, c: Command) {
    (c.Begin? || c.Data? || c.End?) && c.kind == job.kind
  }

  predicate OwnReplyOf(job: Job, r: Reply) {
    r == Error || ((r.BeginAck? || r.Ack? || r.ObjectOk?) && r.kind == job.kind)
  }

  lemma OwnTimeout(job: Job, s: System)
    requires Own(job, s)
    ensures Own(job, OnTimeout(job, s))
  {
    hide Start, Block;
  }

  lemma OwnReply(job: Job, s: System, r: Reply)
    requires Own(job, s)
    ensures Own(job, OnReply(job, s, r))
  {
    hide Start, Block;
  }

  lemma OwnCommand(job: Job, s: System, c: Command)
    requires Own(job, s) && OwnCommandOf(job, c)
    ensures Own(job, OnCommand(s, c))
  {
    hide Start, Block, AppendBlock, EndObject, BeginObject;
  }

  lemma {:induction false} OwnRun(job: Job, s: System, events: seq<Event>)
    requires Own(job, s)
    ensures Own(job, Run(job, s, events))
    decreases |events|
  {
    hide Own, Step;
    if |events| > 0 {
      OwnRun(job, s, events[..|events| - 1]);
      OwnKeeps(job, Run(job, s, events[..|events| - 1]), events[|events| - 1]);
    }
  }

  lemma OtherKindAnswers(job: Job, rx: Receiver, s: System, next: Job)
    requires Reachable(job, rx, s) && s.tx.Finished? && Own(job, s) && next.kind != job.kind
    ensures Answers(next, s.toTx, false, 0, false)
    ensures s.rx == rx.Set(job.kind, s.rx.Get(job.kind)) && s.rx.Get(job.kind).destination == Some(job.file)
  {
    hide InFlight, Start, Startable;
  }

  /** perform_uart_transfer: the manifest follows the firmware on the same
      lines, late replies and all.  When its sender finishes too, both files
      are at their destinations and the receiver accepts the final command. */
  lemma BothObjectsSafe(firmware: Job, manifest: Job, rx: Receiver, events: seq<Event>, more: seq<Event>)
    requires firmware.kind == Firmware && manifest.kind == Manifest
    requires Startable(firmware, rx) && Startable(manifest, rx)
    requires Run(firmware, Initial(firmware, rx, []), events).tx.Finished?
    ensures var mid := Run(firmware, Initial(firmware, rx, []), events);
            var s := Run(manifest, Initial(manifest, mid.rx, mid.toTx), more);
            && Safe(manifest, s)
            && (s.tx.Finished? ==>
                  && s.rx.firmware.destination == Some(firmware.file)
                  && s.rx.manifest.destination == Some(manifest.file)
                  && Handle(s.rx, Done) == Some((s.rx, Complete)))
  {
    var start := Initial(firmware, rx, []);
    var mid := Run(firmware, start, events);
    InitialInv(firmware, rx, []);
    RunKeeps(firmware, rx, start, events);
    ReachableSafe(firmware, rx, mid);
    OwnRun(firmware, start, events);
    OtherKindAnswers(firmware, rx, mid, manifest);
    assert Startable(manifest, mid.rx) by { hide Run, Reachable, Own; }
    hide Startable, Answers, Own;
    InitialInv(manifest, mid.rx, mid.toTx);
    RunKeeps(manifest, mid.rx, Initial(manifest, mid.rx, mid.toTx), more);
    var s := Run(manifest, Initial(manifest, mid.rx, mid.toTx), more);
    ReachableSafe(manifest, mid.rx, s);
    hide Run;
    if s.tx.Finished? {
      FinishedRest(manifest, mid.rx, s);
    }
    hide Reachable;
  }

  lemma FinishedRest(job: Job, rx: Receiver, s: System)
    requires Reachable(job, rx, s) && s.tx.Finished?
    ensures s.rx == rx.Set(job.kind, s.rx.Get(job.kind)) && s.rx.Get(job.kind).destination == Some(job.file)
  {
    hide InFlight, Start, Startable, Answers;
  }

  /** Chunks over 3072 bytes are refused: the payload exceeds the receiver's
      limit, so a whole chunk can be accepted exactly up to that size. */
  lemma ChunkLimit(block: seq<byte>)
    requires block != []
    ensures (|Base64.Encode(block)| <= PAYLOAD_LIMIT && Base64.UartDecode(Base64.Encode(block), BLOCK_LIMIT).Some?)
       <==> |block| <= BLOCK_LIMIT
  {
    hide Base64.UartDecodeFrom;
    if |block| <= BLOCK_LIMIT {
      Base64.UartInvertsEncode(block, BLOCK_LIMIT);
    }
  }
}
