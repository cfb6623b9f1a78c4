/** _read_ack of tools/firmware-flasher/pmosrec_v3.py: finding a compact
    acknowledgement in a damaged byte stream, a byte at a time. */
module AckReader {
  import opened Bytes
  import opened Records
  import opened SerialLine
  import Crc32

  const ACK_MAGIC := 0x334B4341
  const ACK_SIZE := 28
  const ACK_CONFIRM_ATTEMPTS := 4
  const SCAN_LIMIT := ACK_SIZE * ACK_CONFIRM_ATTEMPTS * 3
  const CONFIRM: byte := 0xa5

  datatype Ack = Ack(base: u32, count: u32, retry: u32, status: u32)

  // --------------------------------------------------------------- the scan

  predicate MagicAt(c: seq<byte>, i: nat) {
    i + 4 <= |c| && c[i..i + 4] == Le32(ACK_MAGIC)
  }

  /** A whole record of this object with a correct checksum. */
  predicate GoodRecord(raw: seq<byte>, objectId: u32) {
    && |raw| == ACK_SIZE
    && Crc32.Value(raw[..24]) == U32(raw, 24)
    && U32(raw, 0) == ACK_MAGIC && U32(raw, 4) == objectId
  }

  /** Damage within four consecutive bytes of a good record, its checksum included,
      makes it a bad one. */
  lemma DamageRejected(raw: seq<byte>, damaged: seq<byte>, objectId: u32)
    requires GoodRecord(raw, objectId) && Crc32.NearMiss(raw, damaged)
    ensures !GoodRecord(damaged, objectId)
  {
    hide U32, Crc32.Value;
    assert |damaged| == ACK_SIZE && raw[..ACK_SIZE] == raw && damaged[..ACK_SIZE] == damaged;
    SealLost(raw, damaged, 24);
  }

  predicate RecordAt(c: seq<byte>, i: nat) { i + ACK_SIZE <= |c| }

  function RawAt(c: seq<byte>, i: nat): seq<byte>
    requires RecordAt(c, i)
  {
    c[i..i + ACK_SIZE]
  }

  function Fields(raw: seq<byte>): Ack
    requires |raw| == ACK_SIZE
  {
    Ack(U32(raw, 8), U32(raw, 12), U32(raw, 16), U32(raw, 20))
  }

  /** A magic starts a candidate record; a rejected candidate is passed over
      whole, any other byte alone. */
  function Search(c: seq<byte>, objectId: u32, p: nat): (r: Option<nat>)
    ensures r.Some? ==>
              p <= r.value && MagicAt(c, r.value) && RecordAt(c, r.value) && GoodRecord(RawAt(c, r.value), objectId)
    decreases |c| - p
  {
    if p + 4 > |c| then None
    else if !MagicAt(c, p) then Search(c, objectId, p + 1)
    else if !RecordAt(c, p) then None
    else if GoodRecord(RawAt(c, p), objectId) then Some(p)
    else Search(c, objectId, p + ACK_SIZE)
  }

  /** A candidate record the scan from p meets and rejects. */
  predicate Rejected(c: seq<byte>, objectId: u32, p: nat, j: nat)
    decreases |c| - p
  {
    p <= j && p + 4 <= |c| &&
    if !MagicAt(c, p) then Rejected(c, objectId, p + 1, j)
    else RecordAt(c, p) && !GoodRecord(RawAt(c, p), objectId) && (j == p || Rejected(c, objectId, p + ACK_SIZE, j))
  }

  ghost predicate WithinRejected(c: seq<byte>, objectId: u32, p: nat, i: nat) {
    exists j: nat :: Rejected(c, objectId, p, j) && j < i < j + ACK_SIZE
  }

  ghost predicate GoodAt(c: seq<byte>, objectId: u32, i: nat) {
    MagicAt(c, i) && RecordAt(c, i) && GoodRecord(RawAt(c, i), objectId)
  }

  /** The scan misses no good record except inside a candidate it rejected: it
      stops at the first good record that does not start within one. */
  lemma {:induction false} NothingMissed(c: seq<byte>, objectId: u32, p: nat, i: nat)
    requires p <= i && GoodAt(c, objectId, i)
    ensures (Search(c, objectId, p).Some? && Search(c, objectId, p).value <= i) || WithinRejected(c, objectId, p, i)
    decreases |c| - p
  {
    hide MagicAt, GoodRecord, WithinRejected;
    if i != p {
      if !MagicAt(c, p) {
        NothingMissed(c, objectId, p + 1, i);
        Later(c, objectId, p, p + 1, i);
      } else if !GoodRecord(RawAt(c, p), objectId) {
        if p + ACK_SIZE <= i {
          NothingMissed(c, objectId, p + ACK_SIZE, i);
          Later(c, objectId, p, p + ACK_SIZE, i);
        } else {
          Inside(c, objectId, p, i);
        }
      }
    }
  }

  lemma Inside(c: seq<byte>, objectId: u32, p: nat, i: nat)
    requires MagicAt(c, p) && RecordAt(c, p) && !GoodRecord(RawAt(c, p), objectId) && p < i < p + ACK_SIZE
    ensures WithinRejected(c, objectId, p, i)
  {
    hide MagicAt, GoodRecord;
    assert Rejected(c, objectId, p, p);
  }

  lemma Later(c: seq<byte>, objectId: u32, p: nat, q: nat, i: nat)
    requires p + 4 <= |c| && p < q
    requires if !MagicAt(c, p) then q == p + 1
             else RecordAt(c, p) && !GoodRecord(RawAt(c, p), objectId) && q == p + ACK_SIZE
    ensures WithinRejected(c, objectId, q, i) ==> WithinRejected(c, objectId, p, i)
  {
    hide MagicAt, GoodRecord;
    if WithinRejected(c, objectId, q, i) {
      var j: nat :| Rejected(c, objectId, q, j) && j < i < j + ACK_SIZE;
      assert Rejected(c, objectId, p, j);
    }
  }

  // ----------------------------------------------------- the scan step by step

  /** The scan from p passes q without finding a record. */
  predicate Passes(c: seq<byte>, objectId: u32, p: nat, q: nat)
    decreases |c| - p
  {
    p == q ||
    (p < q && p + 4 <= |c| &&
     if !MagicAt(c, p) then Passes(c, objectId, p + 1, q)
     else RecordAt(c, p) && !GoodRecord(RawAt(c, p), objectId) && Passes(c, objectId, p + ACK_SIZE, q))
  }

  lemma {:induction false} PassesSearch(c: seq<byte>, objectId: u32, p: nat, q: nat)
    requires Passes(c, objectId, p, q)
    ensures Search(c, objectId, p) == Search(c, objectId, q)
    decreases |c| - p
  {
    hide MagicAt, GoodRecord;
    if p != q {
      PassesSearch(c, objectId, if MagicAt(c, p) then p + ACK_SIZE else p + 1, q);
    }
  }

  /** Bytes that arrive later change nothing that was passed. */
  lemma {:induction false} PassesMore(c: seq<byte>, more: seq<byte>, objectId: u32, p: nat, q: nat)
    requires Passes(c, objectId, p, q)
    ensures Passes(c + more, objectId, p, q)
    decreases |c| - p
  {
    hide GoodRecord;
    if p != q {
      assert (c + more)[p..p + 4] == c[p..p + 4];
      if MagicAt(c, p) {
        assert RawAt(c + more, p) == RawAt(c, p);
        PassesMore(c, more, objectId, p + ACK_SIZE, q);
      } else {
        PassesMore(c, more, objectId, p + 1, q);
      }
    }
  }

  lemma {:induction false} PassesOn(c: seq<byte>, objectId: u32, p: nat, q: nat)
    requires Passes(c, objectId, p, q) && q + 4 <= |c|
    ensures !MagicAt(c, q) ==> Passes(c, objectId, p, q + 1)
    ensures MagicAt(c, q) && RecordAt(c, q) && !GoodRecord(RawAt(c, q), objectId) ==>
              Passes(c, objectId, p, q + ACK_SIZE)
    decreases |c| - p
  {
    hide MagicAt, GoodRecord;
    if p != q {
      PassesOn(c, objectId, if MagicAt(c, p) then p + ACK_SIZE else p + 1, q);
      PassesAhead(c, objectId, if MagicAt(c, p) then p + ACK_SIZE else p + 1, q);
    }
  }

  lemma PassesAhead(c: seq<byte>, objectId: u32, p: nat, q: nat)
    requires Passes(c, objectId, p, q)
    ensures p <= q
  {
  }

  // -------------------------------------------------------- partial candidates

  /** Where the candidate record starts that the bytes end in the middle of. */
  function Candidate(c: seq<byte>, objectId: u32, p: nat): (r: Option<nat>)
    ensures r.Some? ==> p <= r.value && r.value + 4 <= |c|
    decreases |c| - p
  {
    if p + 4 > |c| then None
    else if !MagicAt(c, p) then Candidate(c, objectId, p + 1)
    else if !RecordAt(c, p) then Some(p)
    else if GoodRecord(RawAt(c, p), objectId) then None
    else Candidate(c, objectId, p + ACK_SIZE)
  }

  lemma {:induction false} PassesCandidate(c: seq<byte>, objectId: u32, p: nat, q: nat)
    requires Passes(c, objectId, p, q)
    ensures Candidate(c, objectId, p) == Candidate(c, objectId, q)
    decreases |c| - p
  {
    hide MagicAt, GoodRecord;
    if p != q {
      PassesCandidate(c, objectId, if MagicAt(c, p) then p + ACK_SIZE else p + 1, q);
    }
  }

  /** The port will raise at the byte that follows the first `j` of the stream, in
      the middle of a candidate record that starts early enough to be read. */
  predicate HazardAt(stream: seq<byte>, front: int, faults: multiset<int>, objectId: u32, j: nat) {
    && j <= |stream| && front + j in faults
    && Candidate(stream[..j], objectId, 0).Some? && Candidate(stream[..j], objectId, 0).value + 4 < SCAN_LIMIT
  }

  ghost predicate Hazard(stream: seq<byte>, front: int, faults: multiset<int>, objectId: u32) {
    exists j: nat :: HazardAt(stream, front, faults, objectId, j)
  }

  /** A read raised in the middle of a candidate record. */
  ghost predicate StruckInside(stream: seq<byte>, front: int, before: multiset<int>, after: multiset<int>,
                               objectId: u32)
  {
    exists j: nat :: j <= |stream| && after[front + j] < before[front + j] && Candidate(stream[..j], objectId, 0).Some?
  }

  /** An acceptable record early enough to be read. */
  predicate Within(stream: seq<byte>, objectId: u32) {
    Search(stream, objectId, 0).Some? && Search(stream, objectId, 0).value + 4 < SCAN_LIMIT
  }

  // --------------------------------------------------------------- the reader

  datatype Outcome =
    | Acknowledged(ack: Ack)
    | NotReceived
    /** The operating system failed in the middle of a candidate record. */
    | SystemFault
    /** The confirmation byte could not be written. */
    | NotConfirmed

  /** bytearray.find of the four magic bytes. */
  method FindMagic(buffered: seq<byte>) returns (marker: int)
    ensures -1 <= marker < |buffered|
    ensures marker >= 0 ==> MagicAt(buffered, marker) && forall i: nat :: i < marker ==> !MagicAt(buffered, i)
    ensures marker < 0 ==> forall i: nat :: !MagicAt(buffered, i)
  {
    var magic := Le32(ACK_MAGIC);
    hide Le32;
    marker := 0;
    while marker + 4 <= |buffered|
      invariant 0 <= marker
      invariant forall i: nat :: i < marker ==> !MagicAt(buffered, i)
    {
      if buffered[marker..marker + 4] == magic {
        return;
      }
      marker := marker + 1;
    }
    marker := -1;
  }

  /** One byte of the stream, waiting no longer than the clock allows. */
  method ReadByte(link: SerialLink, clock: nat) returns (r: Result<seq<byte>, Fault>)
    requires link.Valid()
    modifies link`buffer, link`incoming, link`delivered, link`faults
    ensures link.Valid() && link.Front() == old(link.Front()) + if r.Ok? then 1 else 0
    ensures r.Ok? ==> |r.value| == 1 && old(link.Stream()) == r.value + link.Stream()
    ensures r.Err? ==> link.Stream() == old(link.Stream())
    ensures if r.Err? && r.error.SystemError?
            then link.Front() in old(link.faults) && link.faults == old(link.faults) - multiset{link.Front()}
            else link.faults == old(link.faults)
    ensures link.prompt && clock > 0 && r.Err? && r.error.TimedOut? ==>
              link.Stream() == [] && link.Front() !in link.faults
  {
    ghost var s := link.Stream();
    ghost var lost;
    r, lost := link.ReadExact(1, clock);
    if r.Ok? {
      assert s == s[..1] + s[1..];
    }
  }

  /** The inner loop: bytes until the candidate record is whole.  It stops short
      at the deadline or after a timed-out read; any other fault escapes. */
  method Fill(link: SerialLink, have: nat, clock: nat) returns (more: seq<byte>, escaped: bool)
    requires link.Valid() && have <= ACK_SIZE
    modifies link`buffer, link`incoming, link`delivered, link`faults
    ensures link.Valid() && link.Front() == old(link.Front()) + |more|
    ensures have + |more| <= ACK_SIZE
    ensures old(link.Stream()) == more + link.Stream()
    ensures escaped ==> have + |more| < ACK_SIZE
    ensures if escaped then link.Front() in old(link.faults) && link.faults == old(link.faults) - multiset{link.Front()}
            else link.faults == old(link.faults)
    ensures link.prompt && clock > ACK_SIZE && !escaped && have + |more| < ACK_SIZE ==>
              link.Stream() == [] && link.Front() !in link.faults
  {
    more := [];
    escaped := false;
    var left := clock;
    while have + |more| < ACK_SIZE && left > 0
      invariant link.Valid() && link.Front() == old(link.Front()) + |more| && link.faults == old(link.faults)
      invariant have + |more| <= ACK_SIZE
      invariant old(link.Stream()) == more + link.Stream()
      invariant link.prompt ==> left == clock - |more|
      decreases left
    {
      left := link.Tick(left);
      ghost var s := link.Stream();
      var r := ReadByte(link, left);
      if r.Err? {
        escaped := r.error.SystemError?;
        return;
      }
      assert more + (r.value + link.Stream()) == more + r.value + link.Stream();
      more := more + r.value;
    }
  }

  /** Where the reader is: everything captured came off the front of the stream,
      the scan has passed `start`, and the bytes after it are still buffered. */
  ghost predicate Scanning(stream: seq<byte>, rest: seq<byte>, captured: seq<byte>, objectId: u32, start: nat,
                           buffered: seq<byte>)
  {
    && stream == captured + rest
    && start <= |captured| && buffered == captured[start..]
    && Passes(captured, objectId, 0, start)
    && (|buffered| <= 4 || (MagicAt(buffered, 0) && |buffered| < ACK_SIZE))
  }

  lemma BufferedMagic(captured: seq<byte>, start: nat, buffered: seq<byte>)
    requires start <= |captured| && buffered == captured[start..]
    ensures MagicAt(buffered, 0) <==> MagicAt(captured, start)
  {
    hide Le32;
    if |buffered| >= 4 {
      assert buffered[0..4] == captured[start..start + 4];
    }
  }

  /** Dropping all but the last three bytes drops no part of a magic. */
  lemma Trimmed(stream: seq<byte>, rest: seq<byte>, captured: seq<byte>, objectId: u32, start: nat, buffered: seq<byte>)
    requires Scanning(stream, rest, captured, objectId, start, buffered) && !MagicAt(buffered, 0)
    ensures |buffered| <= 4
    ensures |buffered| == 4 ==> Scanning(stream, rest, captured, objectId, start + 1, buffered[1..])
  {
    hide MagicAt, GoodRecord, Passes;
    BufferedMagic(captured, start, buffered);
    if |buffered| == 4 {
      PassesOn(captured, objectId, 0, start);
      assert buffered[1..] == captured[start + 1..];
    }
  }

  /** Bytes that have just been read. */
  lemma Taken(stream: seq<byte>, rest: seq<byte>, captured: seq<byte>, objectId: u32, start: nat, buffered: seq<byte>,
              more: seq<byte>, after: seq<byte>)
    requires Scanning(stream, rest, captured, objectId, start, buffered) && rest == more + after
    ensures start <= |captured| && stream == captured + more + after && Passes(captured + more, objectId, 0, start)
    ensures buffered + more == (captured + more)[start..]
  {
    hide MagicAt, GoodRecord, Passes;
    PassesMore(captured, more, objectId, 0, start);
    assert captured + (more + after) == captured + more + after;
  }

  lemma MagicStays(buffered: seq<byte>, more: seq<byte>)
    requires MagicAt(buffered, 0)
    ensures MagicAt(buffered + more, 0)
  {
    hide Le32;
    assert (buffered + more)[0..4] == buffered[0..4];
  }

  /** A whole candidate: accepted, or passed over. */
  lemma Judged(stream: seq<byte>, rest: seq<byte>, captured: seq<byte>, objectId: u32, start: nat, raw: seq<byte>)
    requires stream == captured + rest && start <= |captured| && raw == captured[start..] && |raw| == ACK_SIZE
    requires Passes(captured, objectId, 0, start) && MagicAt(raw, 0)
    ensures GoodRecord(raw, objectId) ==> Search(captured, objectId, 0) == Some(start) && RawAt(captured, start) == raw
    ensures !GoodRecord(raw, objectId) ==> Scanning(stream, rest, captured, objectId, |captured|, [])
  {
    hide MagicAt, GoodRecord, Passes;
    BufferedMagic(captured, start, raw);
    assert RawAt(captured, start) == raw;
    PassesSearch(captured, objectId, 0, start);
    if !GoodRecord(raw, objectId) {
      PassesOn(captured, objectId, 0, start);
      assert captured[|captured|..] == [];
    }
  }

  /** Nothing is found in what has been captured so far. */
  lemma NoneFound(stream: seq<byte>, rest: seq<byte>, captured: seq<byte>, objectId: u32, start: nat,
                  buffered: seq<byte>)
    requires Scanning(stream, rest, captured, objectId, start, buffered)
    ensures Search(captured, objectId, 0) == None
  {
    hide MagicAt, GoodRecord, Passes;
    PassesSearch(captured, objectId, 0, start);
    BufferedMagic(captured, start, buffered);
    if |buffered| <= 4 && start + 4 <= |captured| && !MagicAt(captured, start) {
      ShortTail(captured, objectId, start + 1);
    }
  }

  lemma ShortTail(c: seq<byte>, objectId: u32, p: nat)
    requires p + 4 > |c|
    ensures Search(c, objectId, p) == None
  {
  }

  /** What _read_ack leaves behind. */
  ghost predicate Post(r: Outcome, objectId: u32, captured: seq<byte>, before: seq<byte>, after: seq<byte>) {
    match r
    case Acknowledged(ack) =>
      // the first record the scan accepts, and nothing after it was read
      && before == captured + after
      && var k := Search(captured, objectId, 0);
         k.Some? && |captured| == k.value + ACK_SIZE && ack == Fields(RawAt(captured, k.value))
    case NotReceived =>
      // no acceptable record was read, and every byte was put back
      before == after && captured <= before && Search(captured, objectId, 0) == None
    case SystemFault =>
      // the bytes read are gone, at least the magic of the candidate among them
      before == captured + after && Search(captured, objectId, 0) == None && Candidate(captured, objectId, 0).Some?
    case NotConfirmed =>
      before == captured + after && Search(captured, objectId, 0).Some?
  }

  /** Reads have raised only between candidate records. */
  ghost predicate Unscathed(stream: seq<byte>, front: int, before: multiset<int>, after: multiset<int>, objectId: u32,
                            used: nat)
  {
    && after <= before && |after| + used == |before|
    && forall q :: after[q] < before[q] ==>
         front <= q <= front + |stream| && Candidate(stream[..q - front], objectId, 0).None?
  }

  lemma NoFaultYet(stream: seq<byte>, front: int, faults: multiset<int>, objectId: u32)
    ensures Unscathed(stream, front, faults, faults, objectId, 0)
  {
  }

  /** One more fault, at the byte after what was captured. */
  lemma FaultBetween(stream: seq<byte>, rest: seq<byte>, captured: seq<byte>, objectId: u32, start: nat,
                     buffered: seq<byte>, front: int, before: multiset<int>, after: multiset<int>, used: nat)
    requires Scanning(stream, rest, captured, objectId, start, buffered) && |buffered| <= 3
    requires Unscathed(stream, front, before, after, objectId, used) && front + |captured| in after
    ensures Unscathed(stream, front, before, after - multiset{front + |captured|}, objectId, used + 1)
  {
    BetweenCandidates(captured, objectId, start);
    hide Passes, MagicAt, Candidate;
    assert stream[..|captured|] == captured;
  }

  lemma BetweenCandidates(captured: seq<byte>, objectId: u32, start: nat)
    requires Passes(captured, objectId, 0, start) && start <= |captured| <= start + 3
    ensures Candidate(captured, objectId, 0).None?
  {
    PassesCandidate(captured, objectId, 0, start);
    hide Passes;
  }

  lemma InCandidate(captured: seq<byte>, objectId: u32, start: nat, buffered: seq<byte>)
    requires Passes(captured, objectId, 0, start) && start <= |captured| && buffered == captured[start..]
    requires MagicAt(buffered, 0) && |buffered| < ACK_SIZE
    ensures Candidate(captured, objectId, 0) == Some(start)
  {
    PassesCandidate(captured, objectId, 0, start);
    BufferedMagic(captured, start, buffered);
    hide Passes, MagicAt;
  }

  /** The fault that escapes. */
  lemma FaultInside(stream: seq<byte>, rest: seq<byte>, captured: seq<byte>, objectId: u32, start: nat,
                    buffered: seq<byte>, front: int, before: multiset<int>, after: multiset<int>, used: nat)
    requires Scanning(stream, rest, captured, objectId, start, buffered) && MagicAt(buffered, 0)
    requires Unscathed(stream, front, before, after, objectId, used) && front + |captured| in after
    requires start + 4 < SCAN_LIMIT
    ensures StruckInside(stream, front, before, after - multiset{front + |captured|}, objectId)
    ensures Hazard(stream, front, before, objectId)
    ensures Candidate(captured, objectId, 0).Some?
  {
    InCandidate(captured, objectId, start, buffered);
    hide Passes, MagicAt, Candidate;
    assert stream[..|captured|] == captured;
    assert front + |captured| in before;
    assert HazardAt(stream, front, before, objectId, |captured|);
  }

  lemma NotStruck(stream: seq<byte>, front: int, before: multiset<int>, after: multiset<int>, objectId: u32, used: nat)
    requires Unscathed(stream, front, before, after, objectId, used)
    ensures !StruckInside(stream, front, before, after, objectId)
  {
    hide Candidate;
    forall j: nat | j <= |stream| && after[front + j] < before[front + j]
      ensures Candidate(stream[..j], objectId, 0).None?
    {
      var q := front + j;
      assert after[q] < before[q] && stream[..q - front] == stream[..j];
    }
  }

  /** What lies behind the reader holds no hazard: a fault there has struck, between
      candidate records. */
  lemma NoneBehind(stream: seq<byte>, front: int, before: multiset<int>, after: multiset<int>, objectId: u32,
                   used: nat, j: nat)
    requires Unscathed(stream, front, before, after, objectId, used) && front + j !in after
    ensures !HazardAt(stream, front, before, objectId, j)
  {
    hide Candidate;
    if front + j in before {
      var q := front + j;
      assert after[q] < before[q];
    }
  }

  /** With the stream used up there is no hazard left. */
  lemma NoneWhenDry(stream: seq<byte>, front: int, before: multiset<int>, after: multiset<int>, objectId: u32,
                    used: nat)
    requires Unscathed(stream, front, before, after, objectId, used)
    requires forall q :: q in after ==> front + |stream| < q
    ensures !Hazard(stream, front, before, objectId)
  {
    hide Candidate, Unscathed;
    forall j: nat
      ensures !HazardAt(stream, front, before, objectId, j)
    {
      if j <= |stream| {
        NoneBehind(stream, front, before, after, objectId, used, j);
      }
    }
  }

  /** Nor is there one past a record that was found. */
  lemma NoneWhenFound(stream: seq<byte>, rest: seq<byte>, captured: seq<byte>, objectId: u32, start: nat,
                      front: int, before: multiset<int>, after: multiset<int>, used: nat)
    requires Unscathed(stream, front, before, after, objectId, used) && stream == captured + rest
    requires forall q :: q in after ==> front + |captured| <= q
    requires Passes(captured, objectId, 0, start) && GoodAt(captured, objectId, start)
    ensures !Hazard(stream, front, before, objectId)
  {
    hide Candidate, Unscathed, Passes, GoodRecord, MagicAt;
    forall j: nat
      ensures !HazardAt(stream, front, before, objectId, j)
    {
      if j < |captured| {
        NoneBehind(stream, front, before, after, objectId, used, j);
      } else if j <= |stream| {
        PastRecord(captured, rest[..j - |captured|], objectId, start);
        assert stream[..j] == captured + rest[..j - |captured|];
      }
    }
  }

  lemma PastRecord(captured: seq<byte>, more: seq<byte>, objectId: u32, start: nat)
    requires Passes(captured, objectId, 0, start) && GoodAt(captured, objectId, start)
    ensures Candidate(captured + more, objectId, 0).None? && Search(captured + more, objectId, 0) == Some(start)
  {
    hide GoodRecord;
    PassesMore(captured, more, objectId, 0, start);
    PassesCandidate(captured + more, objectId, 0, start);
    PassesSearch(captured + more, objectId, 0, start);
    assert RawAt(captured + more, start) == RawAt(captured, start);
    assert (captured + more)[start..start + 4] == captured[start..start + 4];
    hide Passes;
  }

  /** Nor past the scan limit. */
  lemma NoneBeyond(stream: seq<byte>, rest: seq<byte>, captured: seq<byte>, objectId: u32, start: nat,
                   front: int, before: multiset<int>, after: multiset<int>, used: nat)
    requires Unscathed(stream, front, before, after, objectId, used) && stream == captured + rest
    requires forall q :: q in after ==> front + |captured| <= q
    requires Passes(captured, objectId, 0, start) && SCAN_LIMIT <= start + 4
    ensures !Hazard(stream, front, before, objectId) && !Within(stream, objectId)
  {
    hide Candidate, Unscathed, Passes, Search;
    forall j: nat
      ensures !HazardAt(stream, front, before, objectId, j)
    {
      if j < |captured| {
        NoneBehind(stream, front, before, after, objectId, used, j);
      } else if j <= |stream| {
        PassesMore(captured, rest[..j - |captured|], objectId, 0, start);
        assert stream[..j] == captured + rest[..j - |captured|];
        PassesCandidate(stream[..j], objectId, 0, start);
      }
    }
    PassesMore(captured, rest, objectId, 0, start);
    PassesSearch(stream, objectId, 0, start);
  }

  /** Time enough, on a prompt port, to read as far as the scan goes. */
  predicate Ample(prompt: bool, clock: nat, faults: multiset<int>) {
    prompt && clock >= SCAN_LIMIT + 3 * ACK_SIZE + |faults|
  }

  /** What became of the port. */
  ghost predicate Effect(r: Outcome, objectId: u32, stream: seq<byte>, front: int, before: multiset<int>,
                         after: multiset<int>, ample: bool)
  {
    && (r.SystemFault? <==> StruckInside(stream, front, before, after, objectId))
    && (r.SystemFault? ==> Hazard(stream, front, before, objectId))
    && (ample ==> (r.SystemFault? <==> Hazard(stream, front, before, objectId)))
    && (ample && !Hazard(stream, front, before, objectId) ==> (r.NotReceived? <==> !Within(stream, objectId)))
  }

  lemma EffectMeans(r: Outcome, objectId: u32, stream: seq<byte>, front: int, before: multiset<int>,
                    after: multiset<int>, ample: bool)
    requires Effect(r, objectId, stream, front, before, after, ample)
    ensures r.SystemFault? ==> Hazard(stream, front, before, objectId)
    ensures ample && !r.SystemFault? ==>
              !Hazard(stream, front, before, objectId) && (r.NotReceived? <==> !Within(stream, objectId))
  {
    hide Hazard, Within, StruckInside;
  }

  /** The port after the bytes `kept`, with the reader where `Scanning` says. */
  ghost predicate Going(link: SerialLink, stream: seq<byte>, front: int, faults: multiset<int>, objectId: u32,
                        kept: seq<byte>, start: nat, buffered: seq<byte>, used: nat)
    reads link
  {
    && link.Valid() && link.Front() == front + |kept|
    && Scanning(stream, link.Stream(), kept, objectId, start, buffered)
    && Unscathed(stream, front, faults, link.faults, objectId, used)
  }

  /** The stream is used up and no read is to raise after it. */
  predicate Dry(link: SerialLink)
    reads link
  {
    link.Stream() == [] && link.Front() !in link.faults
  }

  /** No magic is buffered: all but three bytes go, and one more is read. */
  method Seek(link: SerialLink, objectId: u32, buffered: seq<byte>, kept: seq<byte>, left: nat, ghost stream: seq<byte>,
              ghost front: int, ghost faults: multiset<int>, ghost start: nat, ghost used: nat)
    returns (b: Result<seq<byte>, Fault>, trimmed: seq<byte>, ghost start': nat)
    requires Going(link, stream, front, faults, objectId, kept, start, buffered, used) && !MagicAt(buffered, 0)
    modifies link`buffer, link`incoming, link`delivered, link`faults
    ensures |trimmed| <= 3 && (b.Ok? ==> |b.value| == 1)
    ensures b.Ok? ==> Going(link, stream, front, faults, objectId, kept + b.value, start', trimmed + b.value, used)
    ensures b.Err? ==> Going(link, stream, front, faults, objectId, kept, start', trimmed,
                             if b.error.SystemError? then used + 1 else used)
    ensures old(Dry(link)) || (link.prompt && left > 0 && b.Err? && b.error.TimedOut?) ==> Dry(link)
    ensures old(Dry(link)) ==> b.Err? && b.error.TimedOut?
  {
    hide MagicAt, GoodRecord, Passes, Scanning, Candidate, Unscathed;
    trimmed, start' := buffered, start;
    Trimmed(stream, link.Stream(), kept, objectId, start, buffered);
    if |buffered| > 3 {
      trimmed := buffered[|buffered| - 3..];
      start' := start + 1;
    }
    Shorter(stream, link.Stream(), kept, objectId, start', trimmed);
    ghost var rest, pending := link.Stream(), link.faults;
    b := ReadByte(link, left);
    if b.Ok? {
      Taken(stream, rest, kept, objectId, start', trimmed, b.value, link.Stream());
      OneMore(stream, link.Stream(), kept + b.value, objectId, start', trimmed + b.value);
    } else if b.error.SystemError? {
      FaultBetween(stream, link.Stream(), kept, objectId, start', trimmed, front, faults, pending, used);
    }
  }

  /** A magic is at the front of what is buffered: the candidate record is read as
      far as it comes, and judged when it is whole. */
  method Collect(link: SerialLink, objectId: u32, buffered: seq<byte>, kept: seq<byte>, left: nat,
                 ghost stream: seq<byte>, ghost front: int, ghost faults: multiset<int>, ghost start: nat,
                 ghost used: nat, ghost ample: bool)
    returns (more: seq<byte>, escaped: bool)
    requires Going(link, stream, front, faults, objectId, kept, start, buffered, used)
    requires MagicAt(buffered, 0) && |buffered| < ACK_SIZE && |kept| < SCAN_LIMIT
    modifies link`buffer, link`incoming, link`delivered, link`faults
    ensures link.Valid() && |buffered| + |more| <= ACK_SIZE
    ensures escaped ==> |buffered| + |more| < ACK_SIZE
                        && Lost(SystemFault, objectId, stream, front, faults, kept + more, link.Stream(), link.faults,
                                ample)
    ensures !escaped && |buffered| + |more| < ACK_SIZE ==>
              && Going(link, stream, front, faults, objectId, kept + more, start, buffered + more, used)
              && (old(Dry(link)) || (link.prompt && left > ACK_SIZE) ==> Dry(link))
    ensures |buffered| + |more| == ACK_SIZE ==>
              if GoodRecord(buffered + more, objectId)
              then Lost(NotConfirmed, objectId, stream, front, faults, kept + more, link.Stream(), link.faults, ample)
                   && Lost(Acknowledged(Fields(buffered + more)), objectId, stream, front, faults, kept + more,
                           link.Stream(), link.faults, ample)
              else Going(link, stream, front, faults, objectId, kept + more, |kept + more|, [], used)
    ensures old(Dry(link)) ==> more == []
  {
    hide MagicAt, GoodRecord, Passes, Scanning, Candidate, Unscathed, Fields, Search, StruckInside, Hazard, Effect,
         Post, GoodAt;
    ghost var rest, pending := link.Stream(), link.faults;
    EarlyEnough(stream, rest, kept, objectId, start, buffered);
    more, escaped := Fill(link, |buffered|, left);
    ghost var captured := kept + more;
    Taken(stream, rest, kept, objectId, start, buffered, more, link.Stream());
    MagicStays(buffered, more);
    var raw := buffered + more;
    if |raw| < ACK_SIZE {
      Partial(stream, link.Stream(), captured, objectId, start, raw);
      if escaped {
        NoneFound(stream, link.Stream(), captured, objectId, start, raw);
        FaultInside(stream, link.Stream(), captured, objectId, start, raw, front, faults, pending, used);
        EndsInFault(objectId, captured, stream, link.Stream(), front, faults, link.faults, ample);
      }
      return;
    }
    Judged(stream, link.Stream(), captured, objectId, start, raw);
    JudgedGood(captured, objectId, start, raw);
    if GoodRecord(raw, objectId) {
      EndsInRecord(objectId, captured, stream, link.Stream(), start, front, faults, link.faults, used, ample, raw);
      NotStruck(stream, front, faults, link.faults, objectId, used);
    }
  }

  /** An ending that takes bytes off the stream. */
  ghost predicate Lost(r: Outcome, objectId: u32, stream: seq<byte>, front: int, before: multiset<int>,
                       captured: seq<byte>, rest: seq<byte>, after: multiset<int>, ample: bool)
  {
    && Post(r, objectId, captured, stream, rest) && Effect(r, objectId, stream, front, before, after, ample)
    && stream != rest && (StruckInside(stream, front, before, after, objectId) <==> r.SystemFault?)
  }

  /** _read_ack.  A failed call leaves the stream as it was exactly when no read
      raised inside a candidate record and the confirmation, if it came to that,
      could be written. */
  method ReadAck(link: SerialLink, objectId: u32, clock: nat) returns (r: Outcome, ghost captured: seq<byte>)
    requires link.Valid()
    modifies link
    ensures link.Valid() && Post(r, objectId, captured, old(link.Stream()), link.Stream())
    ensures |captured| < SCAN_LIMIT + ACK_SIZE
    ensures Effect(r, objectId, old(link.Stream()), old(link.Front()), old(link.faults), link.faults,
                   Ample(link.prompt, clock, old(link.faults)))
    ensures r.Acknowledged? ==> link.written == old(link.written) + [CONFIRM]
    ensures !r.Acknowledged? ==> link.written == old(link.written)
    ensures r.NotConfirmed? <==> link.refusals != old(link.refusals)
    ensures r.NotConfirmed? ==> |link.written| in old(link.refusals)
    ensures r.Acknowledged? ==> |old(link.written)| !in link.refusals
    ensures !r.Acknowledged? ==>
              (link.Stream() == old(link.Stream()) <==>
                 !StruckInside(old(link.Stream()), old(link.Front()), old(link.faults), link.faults, objectId)
                 && link.refusals == old(link.refusals))
    // on a prompt port with time enough, bytes are lost exactly when a fault is due
    // inside a candidate record, or at the confirmation of a record to be found
    ensures Ample(link.prompt, clock, old(link.faults)) ==>
              (!r.Acknowledged? && link.Stream() != old(link.Stream()) <==>
                 Hazard(old(link.Stream()), old(link.Front()), old(link.faults), objectId)
                 || (Within(old(link.Stream()), objectId) && |old(link.written)| in old(link.refusals)))
  {
    hide MagicAt, GoodRecord, Passes, Scanning, Fields, U32, Crc32.Value, Search, Candidate, Unscathed, StruckInside,
         Hazard, Within, Effect, Post, GoodAt;
    ghost var stream, front, faults := link.Stream(), link.Front(), link.faults;
    ghost var ample := Ample(link.prompt, clock, faults);
    var buffered: seq<byte> := [];
    var kept: seq<byte> := [];
    var scanned := 0;
    var left: nat := clock;
    ghost var start: nat, used: nat, dry := 0, 0, false;
    NothingYet(stream, objectId);
    NoFaultYet(stream, front, faults, objectId);
    while left > 0 && scanned < SCAN_LIMIT
      invariant Going(link, stream, front, faults, objectId, kept, start, buffered, used)
      invariant scanned == |kept| && |kept| < SCAN_LIMIT + ACK_SIZE
      invariant link.written == old(link.written) && link.refusals == old(link.refusals)
      invariant ample && !dry ==> left + |kept| + used >= clock && |buffered| <= 4
      invariant ample && dry ==> Dry(link)
      decreases left
    {
      left := link.Tick(left);
      var marker := FindMagic(buffered);
      Shape(stream, link.Stream(), kept, objectId, start, buffered, marker);
      UsedBound(stream, front, faults, link.faults, objectId, used);
      if marker < 0 {
        var b;
        b, buffered, start := Seek(link, objectId, buffered, kept, left, stream, front, faults, start, used);
        if b.Ok? {
          buffered := buffered + b.value;
          kept := kept + b.value;
          scanned := scanned + 1;
        } else if b.error.SystemError? {
          used := used + 1;
        } else {
          dry := true;
        }
        continue;
      }
      buffered := buffered[marker..];
      var more, escaped := Collect(link, objectId, buffered, kept, left, stream, front, faults, start, used, ample);
      buffered := buffered + more;
      kept := kept + more;
      scanned := scanned + |more|;
      if |buffered| < ACK_SIZE {
        if escaped {
          EffectMeans(SystemFault, objectId, stream, front, faults, link.faults, ample);
          return SystemFault, kept;
        }
        dry := true;
        continue;
      }
      var raw := buffered;
      buffered := [];
      start := |kept|;
      var crc := Crc32.ValueOf(raw[..24]);
      JudgedBy(raw, objectId, crc);
      if crc != U32(raw, 24) || U32(raw, 0) != ACK_MAGIC || U32(raw, 4) != objectId {
        continue;
      }
      EffectMeans(NotConfirmed, objectId, stream, front, faults, link.faults, ample);
      var ok := link.WriteAll([CONFIRM]);
      if !ok {
        return NotConfirmed, kept;
      }
      return Acknowledged(Fields(raw)), kept;
    }
    NotStruck(stream, front, faults, link.faults, objectId, used);
    EndsInNothing(objectId, kept, stream, link.Stream(), start, buffered, front, faults, link.faults, used, left, clock,
                  link.prompt, dry);
    EffectMeans(NotReceived, objectId, stream, front, faults, link.faults, ample);
    if kept != [] {
      link.PrependBuffer(kept);
    }
    return NotReceived, kept;
  }

  lemma UsedBound(stream: seq<byte>, front: int, before: multiset<int>, after: multiset<int>, objectId: u32, used: nat)
    requires Unscathed(stream, front, before, after, objectId, used)
    ensures used <= |before|
  {
  }

  lemma EarlyEnough(stream: seq<byte>, rest: seq<byte>, captured: seq<byte>, objectId: u32, start: nat,
                    buffered: seq<byte>)
    requires Scanning(stream, rest, captured, objectId, start, buffered) && MagicAt(buffered, 0)
    ensures start + 4 <= |captured|
  {
  }

  lemma JudgedGood(captured: seq<byte>, objectId: u32, start: nat, raw: seq<byte>)
    requires start <= |captured| && raw == captured[start..] && |raw| == ACK_SIZE && MagicAt(raw, 0)
    ensures GoodRecord(raw, objectId) ==> GoodAt(captured, objectId, start)
  {
    BufferedMagic(captured, start, raw);
    hide GoodRecord, MagicAt;
    assert RawAt(captured, start) == raw;
  }

  lemma EndsInFault(objectId: u32, captured: seq<byte>, stream: seq<byte>, rest: seq<byte>, front: int,
                    before: multiset<int>, after: multiset<int>, ample: bool)
    requires stream == captured + rest && Search(captured, objectId, 0) == None
    requires Candidate(captured, objectId, 0).Some?
    requires StruckInside(stream, front, before, after, objectId) && Hazard(stream, front, before, objectId)
    ensures Post(SystemFault, objectId, captured, stream, rest) && stream != rest
    ensures Effect(SystemFault, objectId, stream, front, before, after, ample)
  {
    hide Search, StruckInside, Hazard, Within;
    assert |stream| == |captured| + |rest| && |captured| > 0;
  }

  lemma EndsInRecord(objectId: u32, captured: seq<byte>, stream: seq<byte>, rest: seq<byte>, start: nat, front: int,
                     before: multiset<int>, after: multiset<int>, used: nat, ample: bool, raw: seq<byte>)
    requires stream == captured + rest && start + ACK_SIZE == |captured| && raw == captured[start..]
    requires Passes(captured, objectId, 0, start) && GoodAt(captured, objectId, start) && start + 4 < SCAN_LIMIT
    requires Unscathed(stream, front, before, after, objectId, used)
    requires forall q :: q in after ==> front + |captured| <= q
    ensures Post(NotConfirmed, objectId, captured, stream, rest)
    ensures Post(Acknowledged(Fields(raw)), objectId, captured, stream, rest)
    ensures Effect(NotConfirmed, objectId, stream, front, before, after, ample)
    ensures Effect(Acknowledged(Fields(raw)), objectId, stream, front, before, after, ample)
    ensures stream != rest
  {
    NoneWhenFound(stream, rest, captured, objectId, start, front, before, after, used);
    NotStruck(stream, front, before, after, objectId, used);
    PastRecord(captured, rest, objectId, start);
    PastRecord(captured, [], objectId, start);
    assert captured + [] == captured;
    assert RawAt(captured, start) == raw;
    hide Search, StruckInside, Hazard, Unscathed, Passes, GoodAt, Fields;
    assert |stream| == |captured| + |rest|;
  }

  lemma EndsInNothing(objectId: u32, captured: seq<byte>, stream: seq<byte>, rest: seq<byte>, start: nat,
                      buffered: seq<byte>, front: int, before: multiset<int>, after: multiset<int>, used: nat,
                      left: nat, clock: nat, prompt: bool, dry: bool)
    requires Scanning(stream, rest, captured, objectId, start, buffered)
    requires Unscathed(stream, front, before, after, objectId, used)
    requires forall q :: q in after ==> front + |captured| <= q
    requires left == 0 || |captured| >= SCAN_LIMIT
    requires |captured| < SCAN_LIMIT + ACK_SIZE
    requires Ample(prompt, clock, before) && !dry ==> left + |captured| + used >= clock && |buffered| <= 4
    requires Ample(prompt, clock, before) && dry ==> rest == [] && front + |captured| !in after
    ensures Post(NotReceived, objectId, captured, stream, stream) && captured + rest == stream
    ensures Effect(NotReceived, objectId, stream, front, before, after, Ample(prompt, clock, before))
    ensures captured == [] ==> rest == stream
  {
    NoneFound(stream, rest, captured, objectId, start, buffered);
    NotStruck(stream, front, before, after, objectId, used);
    UsedBound(stream, front, before, after, objectId, used);
    PutBack(stream, rest, captured, objectId, start, buffered);
    hide Search, StruckInside, Hazard, Unscathed, Passes, Within, MagicAt;
    if Ample(prompt, clock, before) {
      if dry {
        assert stream == captured;
        NoneWhenDry(stream, front, before, after, objectId, used);
        NotWithin(stream, objectId);
      } else {
        NoneBeyond(stream, rest, captured, objectId, start, front, before, after, used);
      }
    }
  }

  lemma NotWithin(stream: seq<byte>, objectId: u32)
    requires Search(stream, objectId, 0) == None
    ensures !Within(stream, objectId)
  {
  }

  lemma NothingYet(stream: seq<byte>, objectId: u32)
    ensures Scanning(stream, stream, [], objectId, 0, [])
  {
    hide MagicAt;
    assert [] + stream == stream;
  }

  /** A magic is only ever found at the front of what is buffered. */
  lemma Shape(stream: seq<byte>, rest: seq<byte>, captured: seq<byte>, objectId: u32, start: nat, buffered: seq<byte>,
              marker: int)
    requires Scanning(stream, rest, captured, objectId, start, buffered)
    requires -1 <= marker < |buffered|
    requires marker >= 0 ==> MagicAt(buffered, marker) && forall i: nat :: i < marker ==> !MagicAt(buffered, i)
    requires marker < 0 ==> forall i: nat :: !MagicAt(buffered, i)
    ensures marker <= 0
    ensures marker < 0 ==> !MagicAt(buffered, 0) && |buffered| <= 4
    ensures marker == 0 ==> buffered[marker..] == buffered && 4 <= |buffered| < ACK_SIZE
  {
    hide Passes, Le32;
  }

  lemma Shorter(stream: seq<byte>, rest: seq<byte>, captured: seq<byte>, objectId: u32, start: nat, buffered: seq<byte>)
    requires Scanning(stream, rest, captured, objectId, start, buffered) && |buffered| <= 3
    ensures stream == captured + rest
  {
    hide Passes, MagicAt;
  }

  lemma OneMore(stream: seq<byte>, rest: seq<byte>, captured: seq<byte>, objectId: u32, start: nat, buffered: seq<byte>)
    requires stream == captured + rest && Passes(captured, objectId, 0, start)
    requires start <= |captured| && buffered == captured[start..] && |buffered| <= 4
    ensures Scanning(stream, rest, captured, objectId, start, buffered)
  {
    hide Passes, MagicAt;
  }

  lemma Partial(stream: seq<byte>, rest: seq<byte>, captured: seq<byte>, objectId: u32, start: nat, buffered: seq<byte>)
    requires stream == captured + rest && Passes(captured, objectId, 0, start)
    requires start <= |captured| && buffered == captured[start..] && MagicAt(buffered, 0) && |buffered| < ACK_SIZE
    ensures Scanning(stream, rest, captured, objectId, start, buffered) && |captured| >= 4
  {
    hide Passes, Le32;
  }

  lemma JudgedBy(raw: seq<byte>, objectId: u32, crc: nat)
    requires |raw| == ACK_SIZE && crc == Crc32.Value(raw[..24])
    ensures GoodRecord(raw, objectId) <==> crc == U32(raw, 24) && U32(raw, 0) == ACK_MAGIC && U32(raw, 4) == objectId
  {
    hide U32;
  }

  lemma PutBack(stream: seq<byte>, rest: seq<byte>, captured: seq<byte>, objectId: u32, start: nat, buffered: seq<byte>)
    requires Scanning(stream, rest, captured, objectId, start, buffered)
    ensures stream == captured + rest && captured <= stream && (captured == [] ==> stream == rest)
  {
    hide Passes, MagicAt;
  }

  // ------------------------------------------------------------- losing runs

  /** One read raises right after a magic: what was read is not put back. */
  method LosingRun(objectId: u32, next: byte) returns (link: SerialLink, r: Outcome)
    ensures r.SystemFault? && |link.Stream()| <= 1
  {
    var bytes := Le32(ACK_MAGIC) + [next];
    link := new SerialLink(bytes, multiset{4}, {}, true);
    assert link.Stream() == bytes;
    MagicThenFault(objectId, next);
    assert |multiset{4}| == 1;
    hide Hazard, StruckInside, Within, Le32;
    ghost var captured;
    r, captured := ReadAck(link, objectId, 1000);
    assert |captured| >= 4;
  }

  lemma MagicThenFault(objectId: u32, next: byte)
    ensures Hazard(Le32(ACK_MAGIC) + [next], 0, multiset{4}, objectId)
  {
    var bytes := Le32(ACK_MAGIC) + [next];
    assert bytes[..4] == Le32(ACK_MAGIC);
    hide Le32;
    assert MagicAt(bytes[..4], 0);
    assert HazardAt(bytes, 0, multiset{4}, objectId, 4);
  }

  /** The record the target packs for an acknowledgement. */
  function AckRecord(objectId: u32, ack: Ack): (raw: seq<byte>)
    ensures |raw| == ACK_SIZE
  {
    var head := Pack([ACK_MAGIC, objectId, ack.base, ack.count, ack.retry, ack.status]);
    head + Le32(Crc32.Value(head))
  }

  /** It is acceptable, and reads back as the acknowledgement. */
  lemma AckRecordReads(objectId: u32, ack: Ack)
    ensures GoodAt(AckRecord(objectId, ack), objectId, 0) && Fields(AckRecord(objectId, ack)) == ack
  {
    hide Le32, Pack, Crc32.Value, U32, AckRecord;
    var fields: seq<u32> := [ACK_MAGIC, objectId, ack.base, ack.count, ack.retry, ack.status];
    var raw := AckRecord(objectId, ack);
    AckLayout(objectId, ack, fields);
    assert raw[0..28] == raw;
    forall k: nat | k < 6
      ensures U32(raw, 4 * k) == fields[k]
    {
      PackedField(fields, k);
      SameField(raw, Pack(fields), 4 * k);
    }
    FieldsAt(raw, fields);
    MagicFirst(fields, raw);
  }

  lemma AckLayout(objectId: u32, ack: Ack, fields: seq<u32>)
    requires fields == [ACK_MAGIC, objectId, ack.base, ack.count, ack.retry, ack.status]
    ensures var raw := AckRecord(objectId, ack);
            raw[..24] == Pack(fields) && U32(raw, 24) == Crc32.Value(raw[..24])
  {
    hide Le32, Pack, Crc32.Value, U32;
    var head, raw := Pack(fields), AckRecord(objectId, ack);
    assert raw[..24] == head && raw[24..28] == Le32(Crc32.Value(head));
    U32OfLe32(Crc32.Value(head), raw, 24);
  }

  lemma SameField(raw: seq<byte>, head: seq<byte>, at: nat)
    requires |head| == 24 && |raw| == ACK_SIZE && raw[..24] == head && at + 4 <= 24
    ensures U32(raw, at) == U32(head, at)
  {
  }

  lemma FieldsAt(raw: seq<byte>, fields: seq<u32>)
    requires |raw| == ACK_SIZE && |fields| == 6 && forall k: nat :: k < 6 ==> U32(raw, 4 * k) == fields[k]
    ensures U32(raw, 0) == fields[0] && U32(raw, 4) == fields[1]
    ensures Fields(raw) == Ack(fields[2], fields[3], fields[4], fields[5])
  {
    hide U32;
    assert U32(raw, 4 * 0) == fields[0] && U32(raw, 4 * 1) == fields[1] && U32(raw, 4 * 2) == fields[2];
    assert U32(raw, 4 * 3) == fields[3] && U32(raw, 4 * 4) == fields[4] && U32(raw, 4 * 5) == fields[5];
  }

  lemma MagicFirst(fields: seq<u32>, raw: seq<byte>)
    requires |fields| == 6 && |raw| == ACK_SIZE && raw[..24] == Pack(fields)
    ensures raw[0..4] == Le32(fields[0])
  {
    hide Le32;
    assert raw[0..4] == raw[..24][..4];
  }

  /** The confirmation of a good record cannot be written: the record is gone. */
  method UnconfirmedRun(objectId: u32, ack: Ack) returns (link: SerialLink, r: Outcome)
    ensures r.NotConfirmed? && link.Stream() == []
  {
    var raw := AckRecord(objectId, ack);
    AckRecordReads(objectId, ack);
    link := new SerialLink(raw, multiset{}, {0}, true);
    assert link.Stream() == raw;
    hide AckRecord;
    assert Search(raw, objectId, 0) == Some(0);
    assert !Hazard(raw, 0, multiset{}, objectId);
    hide Hazard, StruckInside, GoodRecord, MagicAt, Search;
    ghost var captured;
    r, captured := ReadAck(link, objectId, 1000);
    assert |captured| >= ACK_SIZE;
  }
}
