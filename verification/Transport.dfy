/** The windowed sender with selective retry of
    tools/firmware-flasher/pmosrec_v3.py, against a line that may lose, damage,
    delay, repeat or reorder frames and repeat acknowledgements. */
module Transport {
  import opened Bytes
  import opened Plan
  import opened Records

  /** A compact acknowledgement; `retry` holds the indices of the bits set in
      the retry bitmap, so a clear bit means the frame is stored. */
  datatype Ack = Ack(base: nat, count: nat, retry: set<nat>, status: nat)

  datatype SendError =
    | EmptyFrameSet
    | AckNotReceived
    | UnexpectedWindow
    | UnexpectedRetryWindow
    | RetryLimitExceeded
    | LineFailed

  /** The acknowledgement tells the truth about what is stored. */
  predicate Truthful(ack: Ack, stored: set<nat>) {
    forall bit :: 0 <= bit < ack.count && bit !in ack.retry ==> ack.base + bit in stored
  }

  /** What a wait for a line ends with; a failure line may be the FEATURE-FAIL of this
      test, and may speak of acknowledgements. */
  datatype Heard = Seen | Told(explicit: bool, ofAck: bool) | Expired | SystemFailed

  /** The serial line and the target behind it: an erased buffer that takes
      every intact frame at its offset. */
  class Link {
    /** Nothing is lost: every write arrives, and the target answers each window
        in time. */
    const reliable: bool
    const objectId: u32
    const frameSize: nat
    ghost const data: seq<byte>
    ghost const frames: seq<EncodedFrame>

    var buffer: seq<byte>
    var stored: set<nat>
    var sent: seq<seq<byte>>
    var acks: seq<Ack>
    ghost var writes: multiset<nat>
    /** Times no acknowledgement came, and times a write failed. */
    ghost var silences: nat
    ghost var faults: nat
    /** FEATURE-PASS lines read. */
    ghost var passes: nat

    ghost predicate Valid()
      reads this
    {
      && (forall i :: 0 <= i < |frames| ==> Sendable(frames[i]) && frames[i].sequence == i)
      && (forall w :: w in sent ==> FromPlan(w))
      && (forall i :: i in stored ==> i < |frames| && Landed(data, buffer, frames[i]))
      && Faithful(data, buffer)
    }

    ghost predicate Sendable(f: EncodedFrame) {
      Representable(f) && Carries(data, frameSize, f)
    }

    ghost predicate FromPlan(w: seq<byte>) {
      exists k :: 0 <= k < |frames| && Representable(frames[k]) && w == Wire(frames[k], objectId)
    }

    lemma FramesRepresentable()
      requires Valid()
      ensures forall i :: 0 <= i < |frames| ==> Representable(frames[i])
    {
      assert forall i :: 0 <= i < |frames| ==> Sendable(frames[i]);
    }

    /** Once every frame is stored the buffer is the object. */
    lemma AllStored(mode: int)
      requires Valid() && 0 < frameSize && GoodPlan(data, frameSize, mode, frames)
      requires forall i :: 0 <= i < |frames| ==> i in stored
      ensures buffer == data
    {
      hide GoodPlan, Landed, Faithful;
      AllLanded(data, frameSize, mode, frames, buffer);
    }

    /** A target that has received nothing yet. */
    constructor (data: seq<byte>, frameSize: nat, frames: seq<EncodedFrame>, objectId: u32, reliable: bool)
      requires forall i :: 0 <= i < |frames| ==>
                 Representable(frames[i]) && Carries(data, frameSize, frames[i]) && frames[i].sequence == i
      ensures Valid() && this.data == data && this.frames == frames
      ensures this.frameSize == frameSize && this.objectId == objectId && this.reliable == reliable
      ensures buffer == Erased(|data|) && stored == {} && sent == [] && acks == [] && writes == multiset{}
      ensures silences == faults == passes == 0
    {
      this.data, this.frames, this.frameSize, this.objectId := data, frames, frameSize, objectId;
      this.reliable := reliable;
      buffer, stored, sent, acks, writes := Erased(|data|), {}, [], [], multiset{};
      silences, faults, passes := 0, 0, 0;
    }

    /** The target keeps an intact frame of its object and drops the rest. */
    method Receive(w: seq<byte>)
      requires Valid() && (w in sent || Parse(w).None?)
      modifies this`buffer, this`stored
      ensures Valid() && old(stored) <= stored
      ensures var parsed := Parse(w);
              parsed.Some? && parsed.value.0 == objectId ==> parsed.value.1.sequence in stored
    {
      hide Store, Wire, Parse, Carries, Landed, Faithful, Representable;
      var parsed := Parse(w);
      if parsed.Some? && parsed.value.0 == objectId {
        var f := parsed.value.1;
        ghost var k :| 0 <= k < |frames| && Representable(frames[k]) && w == Wire(frames[k], objectId);
        ParseWire(frames[k], objectId);
        assert f == frames[k] && Sendable(frames[k]);
        StoreLands(data, frameSize, f, buffer);
        buffer := Store(buffer, f, frameSize);
        stored := stored + {f.sequence};
      }
    }

    /** The line at work: frames written so far arrive in any order, any number
        of times or not at all, among damaged ones that fail the checks. */
    method Deliver()
      requires Valid()
      modifies this`buffer, this`stored
      ensures Valid() && old(stored) <= stored
    {
      var arrivals: nat :| true;
      for n := 0 to arrivals
        invariant Valid() && old(stored) <= stored
      {
        assert Parse([]).None?;
        var w: seq<byte> :| w in sent || Parse(w).None?;
        Receive(w);
      }
    }

    /** write_all: a write that raises may still have put the frame, or part of
        it, on the line. */
    method WriteAll(w: seq<byte>, ghost k: nat) returns (ok: bool)
      requires Valid() && k < |frames| && w == Wire(frames[k], objectId)
      modifies this`buffer, this`stored, this`sent, this`writes, this`faults
      ensures Valid() && old(stored) <= stored
      ensures sent == old(sent) + [w] && writes == old(writes) + multiset{k}
      ensures faults == old(faults) + if ok then 0 else 1
      ensures reliable ==> ok && k in stored
    {
      hide Wire, Parse, Representable, Valid, FromPlan;
      Enter(w, k);
      Deliver();
      ok := *;
      if reliable {
        FramesRepresentable();
        ParseWire(frames[k], objectId);
        Receive(w);
        ok := true;
      }
      if !ok {
        Fail();
      }
    }

    ghost method Fail()
      requires Valid()
      modifies this`faults
      ensures Valid() && faults == old(faults) + 1
    {
      hide Wire, Representable, Carries, Landed, Faithful;
      faults := faults + 1;
    }

    /** A frame is on the line. */
    method Enter(w: seq<byte>, ghost k: nat)
      requires Valid() && k < |frames| && w == Wire(frames[k], objectId)
      modifies this`sent, this`writes
      ensures Valid() && sent == old(sent) + [w] && writes == old(writes) + multiset{k}
    {
      hide Wire, Representable, Carries, Landed, Faithful;
      assert FromPlan(w) by { FramesRepresentable(); }
      sent := sent + [w];
      writes := writes + multiset{k};
    }

    /** Output other than frames, a command line or the draining of
        _guard_multi_frame_window: it may raise. */
    method Output() returns (ok: bool)
      requires Valid()
      modifies this`faults
      ensures Valid() && faults == old(faults) + if ok then 0 else 1
      ensures reliable ==> ok
    {
      ok := *;
      if reliable {
        ok := true;
      }
      if !ok {
        faults := faults + 1;
      }
    }

    /** An acknowledgement of any window, old or new, that was true when the
        target issued it; or none in time; or the confirmation of one could not be
        written.  On a reliable line it is the one for the window just sent. */
    method ReadAck(base: nat, count: nat) returns (r: Result<Ack, SendError>)
      requires Valid()
      modifies this`buffer, this`stored, this`acks, this`silences, this`faults
      ensures Valid() && old(stored) <= stored
      ensures r.Ok? ==>
                Truthful(r.value, stored) && acks == old(acks) + [r.value] && silences == old(silences)
                && faults == old(faults)
      ensures r.Err? ==> acks == old(acks)
      ensures r.Err? ==> (r.error == AckNotReceived && silences == old(silences) + 1 && faults == old(faults))
                         || (r.error == LineFailed && faults == old(faults) + 1 && silences == old(silences))
      ensures reliable && (forall i :: base <= i < base + count ==> i in old(stored)) ==>
                r == Ok(Ack(base, count, {}, 0))
    {
      Deliver();
      if reliable && forall i :: base <= i < base + count ==> i in stored {
        acks := acks + [Ack(base, count, {}, 0)];
        return Ok(Ack(base, count, {}, 0));
      }
      if * {
        silences := silences + 1;
        return Err(AckNotReceived);
      }
      if * {
        faults := faults + 1;
        return Err(LineFailed);
      }
      assert Truthful(Ack(0, 0, {}, 0), stored);
      var ack: Ack :| Truthful(ack, stored);
      acks := acks + [ack];
      r := Ok(ack);
    }

    /** wait_for: the line waited for; a line that reports a failure; a deadline; or an
        error of the operating system.  Only the wait for the result takes
        FEATURE-FAIL for a failure. */
    method Await(result: bool) returns (h: Heard)
      requires Valid()
      modifies this`buffer, this`stored, this`passes
      ensures Valid() && old(stored) <= stored
      ensures passes == old(passes) + if h.Seen? && result then 1 else 0
      ensures h.Told? && h.explicit ==> result
      ensures reliable ==> h.Seen?
    {
      Deliver();
      h := *;
      if reliable {
        h := Seen;
      }
      if h.Told? && !result {
        h := Told(false, h.ofAck);
      }
      if h.Seen? && result {
        passes := passes + 1;
      }
    }
  }

  /** The windows left so far: consecutive from frame 0, each left on an
      acknowledgement for exactly that window with no frame to retry. */
  ghost predicate Windows(ws: seq<Ack>, end: nat, frameCount: nat, windowSize: nat) {
    && (forall j :: 0 <= j < |ws| ==>
          && ws[j].base == (if j == 0 then 0 else ws[j - 1].base + ws[j - 1].count)
          && ws[j].count == Min(windowSize, frameCount - ws[j].base)
          && ws[j].retry == {})
    && end == (if ws == [] then 0 else ws[|ws| - 1].base + ws[|ws| - 1].count)
  }

  /** Frames below `base` and in the window were written at most `most` times,
      later ones not yet. */
  ghost predicate Bounded(writes: multiset<nat>, base: nat, count: nat, most: nat, windowMost: nat) {
    && (forall i :: 0 <= i < base ==> writes[i] <= most)
    && (forall i :: base <= i < base + count ==> writes[i] <= windowMost)
    && (forall i :: base + count <= i ==> writes[i] == 0)
  }

  /** Frames below `n` were written once. */
  ghost predicate Once(writes: multiset<nat>, n: nat) {
    forall i :: 0 <= i < n ==> writes[i] == 1
  }

  predicate Names(ack: Ack, base: nat, count: nat) { ack.base == base && ack.count == count }

  /** Acknowledgements of this window that still ask for frames. */
  predicate Asking(news: seq<Ack>, base: nat, count: nat) {
    forall i :: 0 <= i < |news| ==> Names(news[i], base, count) && news[i].retry != {}
  }

  /** Why the exchange for a window failed, given the acknowledgements it got:
      silence, a failed write, an acknowledgement of another window, or as many
      requests to retry as there may be. */
  ghost predicate Cause(e: SendError, base: nat, count: nat, retries: nat, news: seq<Ack>, silent: bool,
                        faulted: bool)
  {
    match e
    case EmptyFrameSet => false
    case AckNotReceived => silent && Asking(news, base, count)
    case LineFailed => faulted && Asking(news, base, count)
    case UnexpectedWindow => |news| == 1 && !Names(news[0], base, count)
    case UnexpectedRetryWindow =>
      |news| > 1 && !Names(news[|news| - 1], base, count) && Asking(news[..|news| - 1], base, count)
    case RetryLimitExceeded => |news| == 1 + retries && Asking(news, base, count)
  }

  /** The frames of a window of `count` that a retry bitmap asks for. */
  function Wanted(retry: set<nat>, count: nat): nat {
    if count == 0 then 0 else Wanted(retry, count - 1) + if count - 1 in retry then 1 else 0
  }

  lemma {:induction false} WantedNone(retry: set<nat>, count: nat)
    ensures Wanted(retry, count) == 0 <==> forall bit :: 0 <= bit < count ==> bit !in retry
  {
    if count > 0 {
      WantedNone(retry, count - 1);
    }
  }

  /** The frames that the acknowledgements of one window ask for in all. */
  function Asked(news: seq<Ack>, count: nat): nat {
    if news == [] then 0 else Asked(news[..|news| - 1], count) + Wanted(news[|news| - 1].retry, count)
  }

  lemma AskedOne(a: Ack, count: nat)
    ensures Asked([a], count) == Wanted(a.retry, count)
  {
    assert [a][..0] == [];
  }

  lemma AskedMore(news: seq<Ack>, a: Ack, count: nat)
    ensures Asked(news + [a], count) == Asked(news, count) + Wanted(a.retry, count)
  {
    assert (news + [a])[..|news|] == news;
  }

  /** The target saw its UART report a receive error. */
  predicate Noisy(a: Ack) { a.status % 0x10000 != 0 }

  predicate Quiet(news: seq<Ack>) { forall a :: a in news ==> !Noisy(a) }

  /** Bitmaps that ask for nothing outside their windows. */
  predicate Within(news: seq<Ack>) { forall a, bit :: a in news && bit in a.retry ==> bit < a.count }

  /** A first acknowledgement of some window reports a receive error. */
  predicate Disturbed(turns: seq<seq<Ack>>) {
    exists j :: 0 <= j < |turns| && turns[j] != [] && Noisy(turns[j][0])
  }

  /** What the acknowledgements of one window add to the result: a frame sent again
      for each they ask for, and one for a receive error in the first of them. */
  function Charge(news: seq<Ack>): nat
    requires news != []
  {
    Asked(news, news[0].count) + if Noisy(news[0]) then 1 else 0
  }

  /** The acknowledgements of every window so far: each is for its window, the last
      is the one it was left on, and those before still ask for frames. */
  ghost predicate Turns(turns: seq<seq<Ack>>, windows: seq<Ack>) {
    && |turns| == |windows|
    && forall j :: 0 <= j < |turns| ==> Turn(turns[j], windows[j])
  }

  ghost predicate Turn(news: seq<Ack>, last: Ack) {
    && news != [] && news[|news| - 1] == last && Asking(news[..|news| - 1], last.base, last.count)
    && Names(news[0], last.base, last.count)
  }

  function Concat(turns: seq<seq<Ack>>): seq<Ack> {
    if turns == [] then [] else Concat(turns[..|turns| - 1]) + turns[|turns| - 1]
  }

  function Charges(turns: seq<seq<Ack>>): nat
    requires forall j :: 0 <= j < |turns| ==> turns[j] != []
  {
    if turns == [] then 0 else Charges(turns[..|turns| - 1]) + Charge(turns[|turns| - 1])
  }

  /** Frames sent again so far. */
  function Resends(turns: seq<seq<Ack>>): nat
    requires forall j :: 0 <= j < |turns| ==> turns[j] != []
  {
    if turns == [] then 0
    else var news := turns[|turns| - 1]; Resends(turns[..|turns| - 1]) + Asked(news, news[0].count)
  }

  /** The result so far is what the acknowledgements read so far cost. */
  ghost predicate Accounted(acks: seq<Ack>, since: nat, turns: seq<seq<Ack>>, windows: seq<Ack>, total: nat) {
    && since <= |acks| && acks[since..] == Concat(turns) && Turns(turns, windows)
    && (forall j :: 0 <= j < |turns| ==> turns[j] != []) && total == Charges(turns)
  }

  lemma AccountedNext(acks: seq<Ack>, since: nat, turns: seq<seq<Ack>>, windows: seq<Ack>, total: nat,
                      after: seq<Ack>, last: Ack)
    requires Accounted(acks, since, turns, windows, total) && acks <= after
    requires after[|acks|..] != [] && Turn(after[|acks|..], last)
    ensures Accounted(after, since, turns + [after[|acks|..]], windows + [last], total + Charge(after[|acks|..]))
    ensures Resends(turns + [after[|acks|..]])
            == Resends(turns) + Asked(after[|acks|..], after[|acks|..][0].count)
  {
    hide Turn, Charge, Asked;
    var news := after[|acks|..];
    assert (turns + [news])[..|turns|] == turns;
    assert after[since..] == acks[since..] + news;
  }

  /** A result of 0 means that no frame was sent again and, unless a bitmap had bits
      past its window, that no acknowledgement read reports a receive error; and a
      first acknowledgement that does report one makes the result positive. */
  lemma AccountedNone(acks: seq<Ack>, since: nat, turns: seq<seq<Ack>>, windows: seq<Ack>, total: nat)
    requires Accounted(acks, since, turns, windows, total)
    requires forall j :: 0 <= j < |windows| ==> windows[j].retry == {}
    ensures total == 0 && Within(acks[since..]) ==> acks[since..] == windows && Quiet(acks[since..])
    ensures Disturbed(turns) ==> total > 0
  {
    hide Turn, Noisy, Within, Wanted, Charge;
    ChargesNone(turns, windows);
    if total == 0 && Within(acks[since..]) {
      ChargesQuiet(turns, windows);
    }
  }

  /** A window costs nothing exactly when its first acknowledgement reports no receive
      error and none asks for a frame of the window. */
  lemma ChargeNone(news: seq<Ack>, last: Ack)
    requires Turn(news, last) && last.retry == {}
    ensures Charge(news) == 0 <==>
            !Noisy(news[0]) && forall a :: a in news ==> Wanted(a.retry, last.count) == 0
    ensures Charge(news) == 0 && Within(news) ==> news == [last] && !Noisy(last)
  {
    AskedNone(news, last.count);
    if |news| > 1 {
      WantedNone(news[0].retry, last.count);
      assert news[..|news| - 1][0] == news[0] && news[0] in news;
    }
  }

  lemma {:induction false} AskedNone(news: seq<Ack>, count: nat)
    ensures Asked(news, count) == 0 <==> forall a :: a in news ==> Wanted(a.retry, count) == 0
  {
    if news != [] {
      var rest, a := news[..|news| - 1], news[|news| - 1];
      AskedNone(rest, count);
      assert news == rest + [a];
    }
  }

  lemma WithinParts(first: seq<Ack>, second: seq<Ack>)
    requires Within(first + second)
    ensures Within(first) && Within(second)
  {
    forall a, bit | a in first && bit in a.retry ensures bit < a.count {
      assert a in first + second;
    }
    forall a, bit | a in second && bit in a.retry ensures bit < a.count {
      assert a in first + second;
    }
  }

  /** A run costs nothing exactly when every window costs nothing. */
  lemma {:induction false} ChargesNone(turns: seq<seq<Ack>>, windows: seq<Ack>)
    requires Turns(turns, windows) && forall j :: 0 <= j < |turns| ==> turns[j] != []
    requires forall j :: 0 <= j < |windows| ==> windows[j].retry == {}
    ensures Charges(turns) == 0 <==>
            forall j :: 0 <= j < |turns| ==>
              !Noisy(turns[j][0]) && forall a :: a in turns[j] ==> Wanted(a.retry, windows[j].count) == 0
  {
    hide Turn, Charge, Noisy, Wanted;
    if turns != [] {
      var n := |turns| - 1;
      ChargesNone(turns[..n], windows[..n]);
      ChargeNone(turns[n], windows[n]);
    }
  }

  /** With bitmaps that stay within their windows, a run that costs nothing left every
      window on its first acknowledgement, and none reports a receive error. */
  lemma {:induction false} ChargesQuiet(turns: seq<seq<Ack>>, windows: seq<Ack>)
    requires Turns(turns, windows) && forall j :: 0 <= j < |turns| ==> turns[j] != []
    requires forall j :: 0 <= j < |windows| ==> windows[j].retry == {}
    requires Charges(turns) == 0 && Within(Concat(turns))
    ensures Concat(turns) == windows && Quiet(windows)
  {
    hide Turn, Charge, Noisy, Within, Wanted;
    if turns != [] {
      var n := |turns| - 1;
      WithinParts(Concat(turns[..n]), turns[n]);
      ChargesQuiet(turns[..n], windows[..n]);
      ChargeNone(turns[n], windows[n]);
      assert windows == windows[..n] + [windows[n]];
    }
  }

  /** A bitmap may have bits past its window: they cost no frame but one more
      acknowledgement, whose receive status the sender does not look at. */
  lemma StrayBits()
    ensures var news := [Ack(0, 1, {5}, 0), Ack(0, 1, {}, 1)];
            Turn(news, news[1]) && Noisy(news[1]) && Charge(news) == 0
  {
    var news := [Ack(0, 1, {5}, 0), Ack(0, 1, {}, 1)];
    AskedMore([news[0]], news[1], 1);
    AskedOne(news[0], 1);
    assert [news[0]] + [news[1]] == news && 5 in news[0].retry && news[..1] == [news[0]];
    WantedNone({}, 1);
    WantedNone({5}, 1);
  }

  /** Every frame of a window once, with a pause between two. */
  method WriteWindow(link: Link, wires: seq<seq<byte>>, base: nat, count: nat, ghost most: nat) returns (ok: bool)
    requires link.Valid() && base + count <= |wires| == |link.frames|
    requires forall i :: 0 <= i < |wires| ==> wires[i] == Wire(link.frames[i], link.objectId)
    requires Bounded(link.writes, base, 0, most, 0)
    modifies link`buffer, link`stored, link`sent, link`writes, link`faults
    ensures link.Valid() && old(link.stored) <= link.stored
    ensures Bounded(link.writes, base, count, most, 1)
    ensures link.faults == old(link.faults) + if ok then 0 else 1
    ensures ok && Once(old(link.writes), base) ==> Once(link.writes, base + count)
    ensures ok ==> |link.sent| == |old(link.sent)| + count
    ensures link.reliable ==> ok && forall i :: base <= i < base + count ==> i in link.stored
  {
    hide Wire, link.Valid, Bounded, Once;
    BoundBegins(link.writes, base, most);
    for index := base to base + count
      invariant link.Valid() && old(link.stored) <= link.stored
      invariant Bounded(link.writes, base, index - base, most, 1)
      invariant Once(old(link.writes), base) ==> Once(link.writes, index)
      invariant |link.sent| == |old(link.sent)| + index - base && link.faults == old(link.faults)
      invariant link.reliable ==> forall i :: base <= i < index ==> i in link.stored
    {
      OneWritten(link.writes, base, index, most);
      ok := link.WriteAll(wires[index], index);
      if ok && count > 1 && index + 1 < base + count {
        ok := link.Output();
      }
      if !ok {
        WideBound(link.writes, base, index + 1 - base, count, most);
        return;
      }
    }
    ok := true;
  }

  lemma BoundBegins(writes: multiset<nat>, base: nat, most: nat)
    requires Bounded(writes, base, 0, most, 0)
    ensures Bounded(writes, base, 0, most, 1)
  {
  }

  lemma OneWritten(writes: multiset<nat>, base: nat, index: nat, most: nat)
    requires base <= index && Bounded(writes, base, index - base, most, 1)
    ensures Bounded(writes + multiset{index}, base, index + 1 - base, most, 1)
    ensures Once(writes, index) ==> Once(writes + multiset{index}, index + 1)
  {
    assert writes[index] == 0;
  }

  lemma WideBound(writes: multiset<nat>, base: nat, few: nat, count: nat, most: nat)
    requires Bounded(writes, base, few, most, 1) && few <= count
    ensures Bounded(writes, base, count, most, 1)
  {
    forall i | base <= i < base + count
      ensures writes[i] <= 1
    {
      assert base + few <= i ==> writes[i] == 0;
    }
  }

  /** The exchange for one window: send it, then resend what the target asks
      for until it asks for nothing. */
  method SendWindow(link: Link, wires: seq<seq<byte>>, base: nat, count: nat, retries: nat)
    returns (r: Result<Ack, SendError>, resent: nat)
    requires link.Valid() && 0 < count && base + count <= |wires| == |link.frames|
    requires forall i :: 0 <= i < |wires| ==> wires[i] == Wire(link.frames[i], link.objectId)
    requires Bounded(link.writes, base, 0, 1 + retries, 0)
    modifies link`buffer, link`stored, link`sent, link`writes, link`acks, link`silences, link`faults
    ensures link.Valid() && old(link.stored) <= link.stored
    ensures Bounded(link.writes, base, count, 1 + retries, 1 + retries)
    ensures r.Ok? ==>
              Names(r.value, base, count) && r.value.retry == {} && r.value in link.acks
              && Truthful(r.value, link.stored)
    ensures old(link.acks) <= link.acks
    ensures r.Ok? && resent == 0 && Once(old(link.writes), base) ==> Once(link.writes, base + count)
    // every frame asked for again counts, and so does a receive error in the first acknowledgement
    ensures r.Ok? ==>
              Turn(link.acks[|old(link.acks)|..], r.value) && resent == Charge(link.acks[|old(link.acks)|..])
              && |link.sent| == |old(link.sent)| + count + Asked(link.acks[|old(link.acks)|..], count)
    ensures link.reliable ==> r.Ok? && resent == 0
    ensures r.Err? ==> Cause(r.error, base, count, retries, link.acks[|old(link.acks)|..],
                             link.silences > old(link.silences), link.faults > old(link.faults))
  {
    hide Wire, link.Valid, Asking, Bounded, Once, Asked, Turn;
    resent := 0;
    NothingAsked(base, count);
    var ok := WriteWindow(link, wires, base, count, 1 + retries);
    LooseBound(link.writes, base, count, 1 + retries, 1);
    if !ok {
      assert link.acks[|old(link.acks)|..] == [];
      return Err(LineFailed), resent;
    }
    r := link.ReadAck(base, count);
    if r.Err? {
      assert link.acks[|old(link.acks)|..] == [];
      return;
    }
    assert link.acks[|old(link.acks)|..] == [r.value];
    if r.value.base != base || r.value.count != count {
      return Err(UnexpectedWindow), resent;
    }
    if r.value.status % 0x10000 != 0 {
      resent := resent + 1;
    }
    r, resent := RetryWindow(link, wires, base, count, retries, r.value, resent, |old(link.acks)|);
  }

  /** The retry loop of one window, from its first acknowledgement. */
  method RetryWindow(link: Link, wires: seq<seq<byte>>, base: nat, count: nat, retries: nat, first: Ack, before: nat,
                     ghost since: nat)
    returns (r: Result<Ack, SendError>, resent: nat)
    requires link.Valid() && 0 < count && base + count <= |wires| == |link.frames|
    requires forall i :: 0 <= i < |wires| ==> wires[i] == Wire(link.frames[i], link.objectId)
    requires Bounded(link.writes, base, count, 1 + retries, 1)
    requires since + 1 == |link.acks| && link.acks[since] == first && Names(first, base, count)
    requires Truthful(first, link.stored)
    modifies link`buffer, link`stored, link`sent, link`writes, link`acks, link`silences, link`faults
    ensures link.Valid() && old(link.stored) <= link.stored
    ensures Bounded(link.writes, base, count, 1 + retries, 1 + retries)
    ensures r.Ok? ==>
              Names(r.value, base, count) && r.value.retry == {} && Truthful(r.value, link.stored)
              && r.value in link.acks
    ensures old(link.acks) <= link.acks
    ensures r.Ok? ==>
              Turn(link.acks[since..], r.value) && resent == before + Asked(link.acks[since..], count)
              && |link.sent| == |old(link.sent)| + Asked(link.acks[since..], count)
    ensures r.Ok? && resent == 0 ==> link.writes == old(link.writes)
    ensures first.retry == {} ==> r == Ok(first) && resent == before
    ensures r.Err? ==>
              Cause(r.error, base, count, retries, link.acks[since..], link.silences > old(link.silences),
                    link.faults > old(link.faults))
  {
    hide Wire, link.Valid, Asking, Truthful, Bounded, Cause, Asked, Wanted, Turn;
    r, resent := Ok(first), before;
    ghost var news := [first];
    var attempt := 0;
    NothingAsked(base, count);
    assert news[..0] == [] && link.acks[since..] == news;
    AskedLast([first], count);
    AskedNothing(count);
    while r.value.retry != {}
      invariant link.Valid() && old(link.stored) <= link.stored
      invariant r.Ok? && Names(r.value, base, count) && Truthful(r.value, link.stored) && r.value in link.acks
      invariant old(link.acks) <= link.acks && link.acks[since..] == news && link.silences == old(link.silences)
      invariant link.faults == old(link.faults)
      invariant |news| == attempt + 1 && news[attempt] == r.value && Asking(news[..attempt], base, count)
      invariant attempt <= retries && Bounded(link.writes, base, count, 1 + retries, 1 + attempt)
      invariant resent == before + Asked(news[..attempt], count)
      invariant |link.sent| == |old(link.sent)| + Asked(news[..attempt], count)
      invariant resent == 0 ==> link.writes == old(link.writes)
      invariant first.retry == {} ==> attempt == 0 && r == Ok(first) && resent == before
      decreases retries - attempt
    {
      AskedAgain(news, base, count);
      AskedLast(news, count);
      AskedCauses(news, base, count, retries);
      attempt := attempt + 1;
      if attempt > retries {
        return Err(RetryLimitExceeded), resent;
      }
      var ok;
      ok, resent := Resend(link, wires, base, count, r.value.retry, resent, 1 + retries, attempt);
      LooseBound(link.writes, base, count, 1 + retries, 1 + attempt);
      if !ok {
        return Err(LineFailed), resent;
      }
      ghost var acks := link.acks;
      r := link.ReadAck(base, count);
      if r.Err? {
        return;
      }
      OneMoreAck(acks, since, news, r.value);
      news := news + [r.value];
      if r.value.base != base || r.value.count != count {
        OtherWindow(news, base, count, retries);
        return Err(UnexpectedRetryWindow), resent;
      }
    }
    LooseBound(link.writes, base, count, 1 + retries, 1 + attempt);
    AskedLast(news, count);
    WantedNone({}, count);
    IsTurn(news, base, count);
  }

  lemma AskedNothing(count: nat)
    ensures Asked([], count) == 0
  {
  }

  lemma AskedLast(news: seq<Ack>, count: nat)
    requires news != []
    ensures Asked(news, count) == Asked(news[..|news| - 1], count) + Wanted(news[|news| - 1].retry, count)
  {
  }

  lemma IsTurn(news: seq<Ack>, base: nat, count: nat)
    requires news != [] && Names(news[|news| - 1], base, count) && Asking(news[..|news| - 1], base, count)
    ensures Turn(news, news[|news| - 1])
  {
    if |news| > 1 {
      assert Names(news[..|news| - 1][0], base, count);
    }
  }

  lemma OneMoreAck(acks: seq<Ack>, since: nat, news: seq<Ack>, a: Ack)
    requires since <= |acks| && acks[since..] == news
    ensures (acks + [a])[since..] == news + [a]
    ensures (news + [a])[..|news|] == news && (news + [a])[|news|] == a
  {
  }

  lemma LooseBound(writes: multiset<nat>, base: nat, count: nat, most: nat, windowMost: nat)
    requires Bounded(writes, base, count, most, windowMost) && windowMost <= most
    ensures Bounded(writes, base, count, most, most)
  {
  }

  lemma AskedCauses(news: seq<Ack>, base: nat, count: nat, retries: nat)
    requires Asking(news, base, count)
    ensures forall faulted: bool :: Cause(AckNotReceived, base, count, retries, news, true, faulted)
    ensures forall silent: bool :: Cause(LineFailed, base, count, retries, news, silent, true)
    ensures |news| == 1 + retries ==>
              forall silent: bool, faulted: bool ::
                Cause(RetryLimitExceeded, base, count, retries, news, silent, faulted)
  {
  }

  lemma OtherWindow(news: seq<Ack>, base: nat, count: nat, retries: nat)
    requires |news| > 1 && !Names(news[|news| - 1], base, count) && Asking(news[..|news| - 1], base, count)
    ensures forall silent: bool, faulted: bool ::
              Cause(UnexpectedRetryWindow, base, count, retries, news, silent, faulted)
  {
  }

  lemma NothingAsked(base: nat, count: nat)
    ensures Asking([], base, count)
  {
  }

  lemma AskedAgain(news: seq<Ack>, base: nat, count: nat)
    requires news != [] && Asking(news[..|news| - 1], base, count)
    requires Names(news[|news| - 1], base, count) && news[|news| - 1].retry != {}
    ensures Asking(news, base, count)
  {
    forall i | 0 <= i < |news| ensures Names(news[i], base, count) && news[i].retry != {} {
      assert i < |news| - 1 ==> news[i] == news[..|news| - 1][i];
    }
  }

  /** One selective-retry pass over a window. */
  method Resend(link: Link, wires: seq<seq<byte>>, base: nat, count: nat, retry: set<nat>, before: nat,
                ghost most: nat, ghost attempt: nat)
    returns (ok: bool, resent: nat)
    requires link.Valid() && base + count <= |wires| == |link.frames|
    requires forall i :: 0 <= i < |wires| ==> wires[i] == Wire(link.frames[i], link.objectId)
    requires 0 < attempt && Bounded(link.writes, base, count, most, attempt)
    modifies link`buffer, link`stored, link`sent, link`writes, link`faults
    ensures link.Valid() && old(link.stored) <= link.stored
    ensures Bounded(link.writes, base, count, most, attempt + 1)
    ensures link.faults == old(link.faults) + if ok then 0 else 1
    ensures ok ==> resent == before + Wanted(retry, count) && |link.sent| == |old(link.sent)| + Wanted(retry, count)
    ensures ok && resent == before ==> link.writes == old(link.writes)
    ensures ok ==> forall i :: base <= i < base + count ==>
                     link.writes[i] == old(link.writes[i]) + (if i - base in retry then 1 else 0)
  {
    hide Wire, link.Valid, Rewritten, Bounded;
    resent := before;
    PassBegins(link.writes, base, count, retry, most, attempt);
    for bit := 0 to count
      invariant link.Valid() && old(link.stored) <= link.stored
      invariant Rewritten(link.writes, old(link.writes), base, bit, count, retry, most, attempt)
      invariant resent == before + Wanted(retry, bit) && |link.sent| == |old(link.sent)| + Wanted(retry, bit)
      invariant link.faults == old(link.faults) && (resent == before ==> link.writes == old(link.writes))
    {
      PassStep(link.writes, old(link.writes), base, bit, count, retry, most, attempt);
      if bit in retry {
        ok := link.WriteAll(wires[base + bit], base + bit);
        if !ok {
          PassEnds(link.writes, old(link.writes), base, bit + 1, count, retry, most, attempt);
          return;
        }
        resent := resent + 1;
      }
    }
    PassEnds(link.writes, old(link.writes), base, count, count, retry, most, attempt);
    ok := true;
  }

  /** A retry pass as far as bit `bit`. */
  ghost predicate Rewritten(writes: multiset<nat>, was: multiset<nat>, base: nat, bit: nat, count: nat, retry: set<nat>,
                            most: nat, attempt: nat)
  {
    && (forall i :: 0 <= i < base ==> writes[i] <= most)
    && (forall i :: base <= i < base + count ==>
          writes[i] == was[i] + (if i < base + bit && i - base in retry then 1 else 0) && was[i] <= attempt)
    && (forall i :: base + count <= i ==> writes[i] == 0)
  }

  lemma PassBegins(writes: multiset<nat>, base: nat, count: nat, retry: set<nat>, most: nat, attempt: nat)
    requires Bounded(writes, base, count, most, attempt)
    ensures Rewritten(writes, writes, base, 0, count, retry, most, attempt)
  {
  }

  lemma PassStep(writes: multiset<nat>, was: multiset<nat>, base: nat, bit: nat, count: nat, retry: set<nat>,
                 most: nat, attempt: nat)
    requires bit < count && Rewritten(writes, was, base, bit, count, retry, most, attempt)
    ensures Rewritten(if bit in retry then writes + multiset{base + bit}
                      else writes, was, base, bit + 1, count, retry, most, attempt)
  {
  }

  lemma PassEnds(writes: multiset<nat>, was: multiset<nat>, base: nat, bit: nat, count: nat, retry: set<nat>,
                 most: nat, attempt: nat)
    requires bit <= count && Rewritten(writes, was, base, bit, count, retry, most, attempt)
    ensures Bounded(writes, base, count, most, attempt + 1)
    ensures bit == count ==>
              forall i :: base <= i < base + count ==> writes[i] == was[i] + (if i - base in retry then 1 else 0)
  {
  }

  /** The target holds the object, and the sender went through all windows in
      order, leaving each on an acknowledgement it received. */
  ghost predicate Delivered(link: Link, windows: seq<Ack>, windowSize: nat)
    reads link
  {
    && link.buffer == link.data
    && (forall i :: 0 <= i < |link.frames| ==> i in link.stored)
    && Windows(windows, |link.frames|, |link.frames|, windowSize)
    && (forall a :: a in windows ==> a in link.acks)
  }

  /** A failed call left the windows before `base` in good order and has a cause
      in the acknowledgements of the next one. */
  ghost predicate Explained(link: Link, windows: seq<Ack>, windowSize: nat, retries: nat, e: SendError)
    reads link
  {
    exists base: nat, k: nat ::
      && base < |link.frames| && Windows(windows, base, |link.frames|, windowSize) && k <= |link.acks|
      && Cause(e, base, Min(windowSize, |link.frames| - base), retries, link.acks[k..],
               link.silences > 0, link.faults > 0)
  }

  lemma Explains(link: Link, windows: seq<Ack>, windowSize: nat, retries: nat, e: SendError, base: nat, k: nat)
    requires base < |link.frames| && Windows(windows, base, |link.frames|, windowSize) && k <= |link.acks|
    requires Cause(e, base, Min(windowSize, |link.frames| - base), retries, link.acks[k..],
               link.silences > 0, link.faults > 0)
    ensures Explained(link, windows, windowSize, retries, e)
  {
    hide Windows, Cause;
  }

  /** An acknowledgement of a whole window with nothing to retry. */
  lemma WindowStored(ack: Ack, base: nat, count: nat, stored: set<nat>)
    requires Names(ack, base, count) && ack.retry == {} && Truthful(ack, stored)
    ensures forall i :: base <= i < base + count ==> i in stored
  {
    forall i | base <= i < base + count ensures i in stored {
      var bit := i - base;
      assert 0 <= bit < ack.count && bit !in ack.retry;
    }
  }

  lemma BoundedNext(writes: multiset<nat>, base: nat, count: nat, most: nat, frameCount: nat)
    requires Bounded(writes, base, count, most, most) && base + count <= frameCount
    ensures Bounded(writes, base + count, 0, most, 0) && Bounded(writes, frameCount, 0, most, 0)
  {
  }

  lemma NothingWritten(retries: nat)
    ensures Bounded(multiset{}, 0, 0, 1 + retries, 0)
  {
  }

  lemma NamesCount(ack: Ack, base: nat, count: nat)
    requires Names(ack, base, count)
    ensures ack.base == base && ack.count == count
  {
  }

  lemma NextWindow(ws: seq<Ack>, base: nat, frameCount: nat, windowSize: nat, ack: Ack)
    requires Windows(ws, base, frameCount, windowSize)
    requires base <= frameCount && Names(ack, base, Min(windowSize, frameCount - base)) && ack.retry == {}
    ensures Windows(ws + [ack], base + ack.count, frameCount, windowSize)
  {
  }

  /** The sender has left the windows before `base`. */
  ghost predicate SentTo(link: Link, windows: seq<Ack>, base: nat, windowSize: nat, retries: nat, retransmitted: nat)
    reads link
  {
    && base <= |link.frames| && Windows(windows, base, |link.frames|, windowSize)
    && (forall a :: a in windows ==> a in link.acks)
    && (forall i :: 0 <= i < base ==> i in link.stored)
    && Bounded(link.writes, base, 0, 1 + retries, 0)
    && (retransmitted == 0 ==> Once(link.writes, base))
    && (link.reliable ==> retransmitted == 0)
  }

  /** The sender has left the windows before `base`, and counted right. */
  ghost predicate Settled(link: Link, since: nat, turns: seq<seq<Ack>>, windows: seq<Ack>, base: nat,
                          windowSize: nat, retries: nat, total: nat)
    reads link
  {
    && SentTo(link, windows, base, windowSize, retries, total)
    && Accounted(link.acks, since, turns, windows, total)
    && Resent(link.sent, base, turns)
  }

  /** Every frame below `base` was sent, and again as often as asked. */
  ghost predicate Resent(sent: seq<seq<byte>>, base: nat, turns: seq<seq<Ack>>) {
    (forall j :: 0 <= j < |turns| ==> turns[j] != []) && |sent| == base + Resends(turns)
  }

  lemma NothingSent(link: Link, windowSize: nat, retries: nat)
    requires link.sent == [] && link.writes == multiset{}
    ensures Settled(link, |link.acks|, [], [], 0, windowSize, retries, 0)
    ensures Bounded(link.writes, |link.frames|, 0, 1 + retries, 0)
  {
  }

  lemma WindowsSettled(ws: seq<Ack>, end: nat, frameCount: nat, windowSize: nat)
    requires Windows(ws, end, frameCount, windowSize)
    ensures forall j :: 0 <= j < |ws| ==> ws[j].retry == {}
  {
  }

  lemma AllSent(link: Link, windows: seq<Ack>, windowSize: nat, retries: nat, total: nat, mode: int, since: nat,
                turns: seq<seq<Ack>>)
    requires Settled(link, since, turns, windows, |link.frames|, windowSize, retries, total)
    requires link.Valid() && 0 < link.frameSize && GoodPlan(link.data, link.frameSize, mode, link.frames)
    ensures Delivered(link, windows, windowSize) && Bounded(link.writes, |link.frames|, 0, 1 + retries, 0)
    ensures total == 0 ==> |link.sent| == |link.frames| && Once(link.writes, |link.frames|)
    ensures Accounted(link.acks, since, turns, windows, total) && Resent(link.sent, |link.frames|, turns)
    ensures total == 0 && Within(link.acks[since..]) ==> Quiet(link.acks[since..])
    ensures Disturbed(turns) ==> total > 0
    ensures link.reliable ==> total == 0
  {
    hide GoodPlan, link.Valid, Windows, Bounded, Once, Accounted, Quiet, Within, Disturbed;
    link.AllStored(mode);
    WindowsSettled(windows, |link.frames|, |link.frames|, windowSize);
    AccountedNone(link.acks, since, turns, windows, total);
    AccountedResends(link.acks, since, turns, windows, total);
  }

  lemma AccountedResends(acks: seq<Ack>, since: nat, turns: seq<seq<Ack>>, windows: seq<Ack>, total: nat)
    requires Accounted(acks, since, turns, windows, total)
    ensures forall j :: 0 <= j < |turns| ==> turns[j] != []
    ensures Resends(turns) <= total
  {
    ResendsCharged(turns);
  }

  lemma {:induction false} ResendsCharged(turns: seq<seq<Ack>>)
    requires forall j :: 0 <= j < |turns| ==> turns[j] != []
    ensures Resends(turns) <= Charges(turns)
  {
    if turns != [] {
      ResendsCharged(turns[..|turns| - 1]);
    }
  }

  ghost predicate WiresOf(wires: seq<seq<byte>>, frames: seq<EncodedFrame>, objectId: u32) {
    && |wires| == |frames| && (forall i :: 0 <= i < |frames| ==> Representable(frames[i]))
    && forall i :: 0 <= i < |frames| ==> wires[i] == Wire(frames[i], objectId)
  }

  /** The frames as they go out. */
  function Wires(frames: seq<EncodedFrame>, objectId: u32): (wires: seq<seq<byte>>)
    requires forall i :: 0 <= i < |frames| ==> Representable(frames[i])
    ensures |wires| == |frames| && WiresOf(wires, frames, objectId)
  {
    seq(|frames|, i requires 0 <= i < |frames| && Representable(frames[i]) => Wire(frames[i], objectId))
  }

  /** One window more. */
  method NextInOrder(link: Link, wires: seq<seq<byte>>, base: nat, count: nat, windowSize: nat, retries: nat,
                     ghost windows: seq<Ack>, retransmitted: nat, ghost since: nat, ghost turns: seq<seq<Ack>>)
    returns (r: Result<Ack, SendError>, total: nat, ghost more: seq<seq<Ack>>)
    requires link.Valid() && 0 < windowSize && base < |wires| == |link.frames|
    requires count == Min(windowSize, |wires| - base)
    requires WiresOf(wires, link.frames, link.objectId)
    requires Settled(link, since, turns, windows, base, windowSize, retries, retransmitted)
    modifies link`buffer, link`stored, link`sent, link`writes, link`acks, link`silences, link`faults
    ensures link.Valid()
    ensures r.Ok? ==> Settled(link, since, more, windows + [r.value], base + count, windowSize, retries, total)
    ensures r.Err? ==>
              !link.reliable && r.error != EmptyFrameSet && Explained(link, windows, windowSize, retries, r.error)
              && Bounded(link.writes, |link.frames|, 0, 1 + retries, 0)
  {
    hide Wire, link.Valid, Windows, Bounded, Explained, Once, Truthful, Accounted, Turn, Charge, Asked, Resends, Cause,
         Names;
    more := turns;
    ghost var was := link.acks;
    ghost var k := |link.acks|;
    var resent;
    r, resent := SendWindow(link, wires, base, count, retries);
    total := retransmitted + resent;
    BoundedNext(link.writes, base, count, 1 + retries, |wires|);
    if r.Err? {
      CauseGrows(r.error, base, count, retries, link.acks[k..], link.silences > old(link.silences),
                 link.faults > old(link.faults), link.silences > 0, link.faults > 0);
      Explains(link, windows, windowSize, retries, r.error, base, k);
      return;
    }
    TurnBegins(link.acks[|was|..], r.value, base, count);
    AccountedNext(was, since, turns, windows, retransmitted, link.acks, r.value);
    more := turns + [link.acks[|was|..]];
    WindowStored(r.value, base, count, link.stored);
    NextWindow(windows, base, |wires|, windowSize, r.value);
    NamesCount(r.value, base, count);
  }

  lemma CauseGrows(e: SendError, base: nat, count: nat, retries: nat, news: seq<Ack>, silent: bool, faulted: bool,
                   everSilent: bool, everFaulted: bool)
    requires Cause(e, base, count, retries, news, silent, faulted)
    requires (silent ==> everSilent) && (faulted ==> everFaulted)
    ensures Cause(e, base, count, retries, news, everSilent, everFaulted) && e != EmptyFrameSet
  {
  }

  lemma TurnBegins(news: seq<Ack>, last: Ack, base: nat, count: nat)
    requires Turn(news, last) && Names(last, base, count)
    ensures news != [] && news[0].count == count
  {
  }

  /** send_frames.  A normal return means the target holds the object; no frame
      is ever written more than 1 + retries times, whether or not the call
      returns normally. */
  method SendFrames(link: Link, frames: seq<EncodedFrame>, windowSize: nat, retries: nat, ghost mode: int)
    returns (r: Result<nat, SendError>, windows: seq<Ack>, ghost turns: seq<seq<Ack>>)
    requires link.Valid() && link.frames == frames && link.sent == [] && link.writes == multiset{}
    requires 0 < windowSize && 0 < link.frameSize
    requires |frames| > 0 ==> GoodPlan(link.data, link.frameSize, mode, frames)
    modifies link`buffer, link`stored, link`sent, link`writes, link`acks, link`silences, link`faults
    ensures link.Valid() && Bounded(link.writes, |frames|, 0, 1 + retries, 0)
    ensures r.Ok? ==> |frames| > 0 && Delivered(link, windows, windowSize)
    ensures r.Ok? && r.value == 0 ==> |link.sent| == |frames| && Once(link.writes, |frames|)
    // the result counts the frames sent again and the windows first answered with a receive error
    ensures r.Ok? ==> Accounted(link.acks, |old(link.acks)|, turns, windows, r.value)
                      && Resent(link.sent, |frames|, turns)
    ensures r == Ok(0) && Within(link.acks[|old(link.acks)|..]) ==> Quiet(link.acks[|old(link.acks)|..])
    ensures r.Ok? && Disturbed(turns) ==> r.value > 0
    // a line that loses nothing carries every frame once
    ensures link.reliable && frames != [] ==> r == Ok(0)
    ensures r == Err(EmptyFrameSet) <==> frames == []
    ensures r.Err? && frames != [] ==> Explained(link, windows, windowSize, retries, r.error)
  {
    hide Wires, WiresOf, GoodPlan, link.Valid, Settled, Bounded, Representable, Explained, Once, Delivered,
         Accounted, Resent, Within, Quiet, Disturbed;
    windows, turns := [], [];
    ghost var since := |link.acks|;
    NothingSent(link, windowSize, retries);
    link.FramesRepresentable();
    if |frames| == 0 {
      return Err(EmptyFrameSet), windows, turns;
    }
    var wires := Wires(frames, link.objectId);
    var base: nat, retransmitted: nat := 0, 0;
    while base < |frames|
      invariant base <= |frames| && link.Valid()
      invariant Settled(link, since, turns, windows, base, windowSize, retries, retransmitted)
      decreases |frames| - base
    {
      var count := Min(windowSize, |frames| - base);
      var ack, total, more :=
        NextInOrder(link, wires, base, count, windowSize, retries, windows, retransmitted, since, turns);
      if ack.Err? {
        return Err(ack.error), windows, turns;
      }
      windows, retransmitted, turns := windows + [ack.value], total, more;
      base := base + count;
    }
    AllSent(link, windows, windowSize, retries, retransmitted, mode, since, turns);
    r := Ok(retransmitted);
  }

  lemma PlanSendable(data: seq<byte>, frameSize: nat, mode: int, frames: seq<EncodedFrame>)
    requires 0 < frameSize && |data| < U32_LIMIT && GoodPlan(data, frameSize, mode, frames)
    requires |frames| <= U32_LIMIT
    ensures forall i :: 0 <= i < |frames| ==>
              Representable(frames[i]) && Carries(data, frameSize, frames[i]) && frames[i].sequence == i
  {
    forall i | 0 <= i < |frames| ensures Representable(frames[i]) {
      assert Carries(data, frameSize, frames[i]);
    }
  }

  /** Frames of one plan are no more numerous than the object's bytes. */
  lemma {:induction false} FrameCount(data: seq<byte>, frameSize: nat, mode: int, frames: seq<EncodedFrame>, n: nat)
    requires 0 < frameSize && Framed(data, frameSize, mode, frames) && n < |frames|
    requires forall i :: 0 <= i < |frames| ==> 0 < frames[i].decodedLength
    ensures n <= frames[n].offset
  {
    if n > 0 {
      FrameCount(data, frameSize, mode, frames, n - 1);
      assert frames[n - 1].offset + frames[n - 1].decodedLength <= frames[n].offset;
    }
  }

  /** How feature_test ends: a verdict, or an exception. */
  datatype Qualification = Passed | Rejected | Raised

  /** What its try block came to: all frames sent and the pass line read; a protocol
      error, by what its message says; or another exception. */
  datatype Ending = Finished(retransmitted: nat) | Troubled(explicit: bool, ofAck: bool) | Escaped

  const RETRIES := 3

  /** The error of a wait. */
  function Unheard(h: Heard): Ending
    requires !h.Seen?
  {
    match h
    case Told(explicit, ofAck) => Troubled(explicit, ofAck)
    case Expired => Troubled(false, false)
    case SystemFailed => Escaped
  }

  /** The error of send_frames.  Of its messages the one for another window speaks of
      a compact ACK, the one for silence may, and a write may fail in the operating
      system. */
  method Unsent(e: SendError) returns (ending: Ending)
    ensures !ending.Finished? && (ending.Troubled? ==> !ending.explicit)
    ensures e.UnexpectedWindow? ==> ending == Troubled(false, true)
    ensures e.EmptyFrameSet? || e.UnexpectedRetryWindow? || e.RetryLimitExceeded? ==> ending == Troubled(false, false)
    ensures ending.Escaped? ==> e.LineFailed?
    ensures e.LineFailed? ==> ending.Escaped? || !ending.ofAck
  {
    var ofAck: bool := *;
    var system: bool := *;
    match e
    case UnexpectedWindow => ending := Troubled(false, true);
    case AckNotReceived => ending := Troubled(false, ofAck);
    case LineFailed => ending := if system then Escaped else Troubled(false, false);
    case _ => ending := Troubled(false, false);
  }

  /** feature_test: an object is planned and sent to the erased buffer of a
      target.  The transport passes only if the target then holds exactly the
      object, says so, and no frame was written twice; whatever the object, frame
      size, representation, window and line, no frame is written more than four
      times.  An error that speaks of acknowledgements raises in raw mode, and when
      the stream did not get back into step (`synced`). */
  method FeatureTest(data: seq<byte>, frameSize: nat, mode: int, windowSize: nat, objectId: u32, reliable: bool)
    returns (link: Link, q: Qualification, ending: Ending, synced: bool,
             ghost windows: seq<Ack>, ghost turns: seq<seq<Ack>>)
    requires 0 < frameSize && 0 < windowSize && |data| < U32_LIMIT
    ensures fresh(link) && link.data == data && link.reliable == reliable
    ensures GoodPlan(data, frameSize, mode, link.frames)
    ensures q.Passed? ==>
              link.buffer == data && link.passes == 1 && |link.sent| == |link.frames|
              && Once(link.writes, |link.frames|)
    // a pass means that no acknowledgement reported a receive error, and a receive error in the first
    // acknowledgement of any window means a rejection even if the object arrived
    ensures q.Passed? && Within(link.acks) ==> Quiet(link.acks)
    ensures ending.Finished? ==> Accounted(link.acks, 0, turns, windows, ending.retransmitted)
    ensures ending.Finished? && Disturbed(turns) ==> q == Rejected
    ensures q.Passed? <==> ending == Finished(0)
    ensures q.Raised? <==>
              || ending.Escaped?
              || (ending.Troubled? && ending.ofAck && (mode == REP_RAW || !(ending.explicit || synced)))
    ensures reliable ==> q.Passed?
    ensures forall i :: 0 <= i ==> link.writes[i] <= 1 + RETRIES
  {
    var plan := MakePlan(data, frameSize, mode);
    var frames := plan.value;
    PlanFits(data, frameSize, mode, frames);
    link := new Link(data, frameSize, frames, objectId, reliable);
    NothingWritten(RETRIES);
    hide GoodPlan, Bounded, Windows, Explained, Once, link.Valid, Accounted, Within, Quiet, Disturbed;
    windows, turns := [], [];
    synced := *;
    var ok := link.Output();
    if !ok {
      NeverMoreThan(link.writes, |frames|, RETRIES);
      return link, Raised, Escaped, synced, windows, turns;
    }
    ending, windows, turns := SendAndListen(link, frames, windowSize, mode);
    NeverMoreThan(link.writes, |frames|, RETRIES);
    match ending
    case Finished(retransmitted) => q := if retransmitted != 0 then Rejected else Passed;
    case Escaped => q := Raised;
    case Troubled(explicit, ofAck) =>
      var synchronized := explicit;
      if !explicit {
        synchronized := synced;
      }
      if ofAck && (!synchronized || mode == REP_RAW) {
        q := Raised;
      } else {
        q := Rejected;
      }
  }

  /** The try block of feature_test. */
  method SendAndListen(link: Link, frames: seq<EncodedFrame>, windowSize: nat, ghost mode: int)
    returns (ending: Ending, ghost windows: seq<Ack>, ghost turns: seq<seq<Ack>>)
    requires link.Valid() && link.frames == frames != []
    requires link.sent == [] && link.acks == [] && link.writes == multiset{}
    requires 0 < windowSize && 0 < link.frameSize && GoodPlan(link.data, link.frameSize, mode, frames)
    modifies link`buffer, link`stored, link`sent, link`writes, link`acks, link`silences, link`faults, link`passes
    ensures Bounded(link.writes, |frames|, 0, 1 + RETRIES, 0) || Bounded(link.writes, 0, 0, 1 + RETRIES, 0)
    ensures ending.Finished? ==> link.buffer == link.data && link.passes == old(link.passes) + 1
    ensures ending == Finished(0) ==> |link.sent| == |frames| && Once(link.writes, |frames|)
    ensures ending.Finished? ==> Accounted(link.acks, 0, turns, windows, ending.retransmitted)
    ensures ending == Finished(0) && Within(link.acks) ==> Quiet(link.acks)
    ensures ending.Finished? && Disturbed(turns) ==> ending.retransmitted > 0
    ensures link.reliable ==> ending == Finished(0)
  {
    NothingWritten(RETRIES);
    hide GoodPlan, Bounded, Windows, Explained, Once, link.Valid, Accounted, Resent, Within, Quiet, Disturbed;
    windows, turns := [], [];
    var ready := link.Await(false);
    if !ready.Seen? {
      return Unheard(ready), windows, turns;
    }
    var r, ws, ts := SendFrames(link, frames, windowSize, RETRIES, mode);
    windows, turns := ws, ts;
    assert link.acks[0..] == link.acks;
    if r.Err? {
      ending := Unsent(r.error);
      return;
    }
    var result := link.Await(true);
    link.AllStored(mode);
    ending := if result.Seen? then Finished(r.value) else Unheard(result);
  }

  lemma PlanFits(data: seq<byte>, frameSize: nat, mode: int, frames: seq<EncodedFrame>)
    requires 0 < frameSize && |data| < U32_LIMIT && GoodPlan(data, frameSize, mode, frames)
    ensures frames != [] && forall i :: 0 <= i < |frames| ==>
              Representable(frames[i]) && Carries(data, frameSize, frames[i]) && frames[i].sequence == i
  {
    if |frames| > 1 {
      FrameCount(data, frameSize, mode, frames, |frames| - 1);
      assert Carries(data, frameSize, frames[|frames| - 1]);
    }
    PlanSendable(data, frameSize, mode, frames);
  }

  lemma NeverMoreThan(writes: multiset<nat>, n: nat, retries: nat)
    requires Bounded(writes, n, 0, 1 + retries, 0) || Bounded(writes, 0, 0, 1 + retries, 0)
    ensures forall i :: 0 <= i ==> writes[i] <= 1 + retries
  {
    forall i | 0 <= i
      ensures writes[i] <= 1 + retries
    {
      assert n <= i ==> Bounded(writes, n, 0, 1 + retries, 0) ==> writes[i] == 0;
    }
  }
}
