/** The byte buffer under the ACK reader: SerialLink of
    tools/firmware-flasher/bootloader_protocol.py. */
module SerialLine {
  import opened Bytes

  /** A deadline passed, or the operating system refused the read. */
  datatype Fault = TimedOut | SystemError

  const NEWLINE: byte := 10

  class SerialLink {
    /** Bytes read from the port and not yet handed out. */
    var buffer: seq<byte>
    /** Bytes the port will still deliver, and how many it has delivered. */
    var incoming: seq<byte>
    var delivered: nat
    /** Where reads will raise: before the byte of that number is delivered, as
        often as the number occurs. */
    var faults: multiset<int>
    /** Bytes written to the port, and at which byte a write will raise. */
    var written: seq<byte>
    var refusals: set<nat>
    /** Every poll costs one tick and brings a byte, if there is one, or raises, if
        it is to raise. */
    const prompt: bool

    constructor (incoming: seq<byte>, faults: multiset<int>, refusals: set<nat>, prompt: bool)
      requires forall q :: q in faults ==> 0 <= q
      ensures Valid() && buffer == [] && this.incoming == incoming && delivered == 0 && this.faults == faults
      ensures written == [] && this.refusals == refusals && this.prompt == prompt
    {
      this.buffer, this.incoming, this.delivered, this.faults := [], incoming, 0, faults;
      this.written, this.refusals, this.prompt := [], refusals, prompt;
    }

    ghost predicate Valid()
      reads this
    {
      forall q :: q in faults ==> delivered <= q
    }

    /** Everything a reader will see, in order. */
    function Stream(): seq<byte>
      reads this
    {
      buffer + incoming
    }

    /** The number of the first byte of the stream. */
    function Front(): int
      reads this
    {
      delivered - |buffer|
    }

    /** Time passes. */
    method Tick(clock: nat) returns (left: nat)
      requires 0 < clock
      ensures left < clock && (prompt ==> left == clock - 1)
    {
      left :| 0 <= left < clock;
      if prompt {
        left := clock - 1;
      }
    }

    /** select and os.read for at most `limit` bytes: some bytes, none, or an
        error.  The clock runs on. */
    method Poll(limit: nat, clock: nat) returns (r: Result<seq<byte>, Fault>, left: nat)
      requires Valid() && 0 < limit && 0 < clock
      modifies `incoming, `delivered, `faults
      ensures Valid() && left < clock
      ensures r.Ok? ==>
                |r.value| <= limit && r.value + incoming == old(incoming) && delivered == old(delivered) + |r.value|
                && faults == old(faults)
      ensures r.Err? ==> r.error.SystemError? && incoming == old(incoming) && delivered == old(delivered)
                         && delivered in old(faults) && faults == old(faults) - multiset{delivered}
      ensures prompt ==> left == clock - 1 && (r.Err? <==> old(delivered) in old(faults))
      ensures prompt && r.Ok? && old(incoming) != [] ==> r.value != []
    {
      left := Tick(clock);
      if delivered in faults {
        var raises: bool := *;
        if raises || prompt {
          faults := faults - multiset{delivered};
          return Err(SystemError), left;
        }
        return Ok([]), left;
      }
      var n: nat := 0;
      var least: nat := if prompt then 1 else 0;
      // never past the byte at which a read is to raise
      while n < limit && n < |incoming| && delivered + n !in faults
        invariant n <= limit && n <= |incoming|
        invariant forall q :: q in faults ==> delivered + n <= q
        invariant n > 0 || delivered !in faults
      {
        n := n + 1;
        var enough: bool := *;
        if enough && least <= n {
          break;
        }
      }
      var nothing: bool := *;
      if nothing && !prompt {
        n := 0;
      }
      r := Ok(incoming[..n]);
      incoming, delivered := incoming[n..], delivered + n;
    }

    /** write_all: everything goes out, or an error after part of it. */
    method WriteAll(data: seq<byte>) returns (ok: bool)
      modifies `written, `refusals
      ensures ok <==> forall q: nat :: |old(written)| <= q < |old(written)| + |data| ==> q !in old(refusals)
      ensures ok ==> written == old(written) + data && refusals == old(refusals)
      ensures !ok ==> old(written) <= written < old(written) + data
                      && |written| in old(refusals) && refusals == old(refusals) - {|written|}
    {
      var n: nat := 0;
      assert data[..0] == [];
      while n < |data|
        invariant n <= |data| && written == old(written) + data[..n] && refusals == old(refusals)
        invariant forall q: nat :: |old(written)| <= q < |old(written)| + n ==> q !in refusals
      {
        if |written| in refusals {
          assert old(written) + data == written + data[n..];
          refusals := refusals - {|written|};
          return false;
        }
        assert data[..n + 1] == data[..n] + [data[n]];
        written := written + [data[n]];
        n := n + 1;
      }
      assert data[..|data|] == data;
      ok := true;
    }

    /** prepend_buffer. */
    method PrependBuffer(data: seq<byte>)
      requires Valid()
      modifies `buffer
      ensures Valid() && Stream() == data + old(Stream()) && Front() == old(Front()) - |data|
    {
      if data != [] {
        buffer := data + buffer;
      }
      assert data + buffer + incoming == data + (buffer + incoming);
      assert data == [] ==> data + (buffer + incoming) == buffer + incoming;
    }

    /** A fault at the front of the stream is one of the port. */
    lemma AtFault()
      requires Valid()
      ensures Front() in faults ==> buffer == []
    {
    }

    /** read_exact: the next bytes of the stream, in order and whole.  A read that
        fails has dropped what it had taken, which is always less than it was
        asked for: a one-byte read that fails has taken nothing. */
    method ReadExact(length: nat, clock: nat) returns (r: Result<seq<byte>, Fault>, ghost lost: nat)
      requires Valid()
      modifies `buffer, `incoming, `delivered, `faults
      ensures Valid() && Front() == old(Front()) + if r.Ok? then length else lost
      ensures r.Ok? ==>
                length <= |old(Stream())| && r.value == old(Stream())[..length] && Stream() == old(Stream())[length..]
      ensures r.Err? ==> lost < length && lost <= |old(Stream())| && Stream() == old(Stream())[lost..]
      ensures r.Ok? || r.error.TimedOut? ==> faults == old(faults)
      ensures r.Err? && r.error.SystemError? ==> Front() in old(faults) && faults == old(faults) - multiset{Front()}
      ensures prompt && length <= |old(Stream())| && length <= clock && r.Err? ==> r.error.SystemError?
      ensures prompt && 0 < clock && length == 1 && old(Front()) in old(faults) ==> r.Err? && r.error.SystemError?
    {
      AtFault();
      hide Valid, Split;
      var take := Min(length, |buffer|);
      var output := buffer[..take];
      ghost var all := Stream();
      Halves(buffer, take, incoming);
      buffer := buffer[take..];
      var left: nat := clock;
      while |output| < length
        invariant |output| <= length && Valid() && faults == old(faults)
        invariant |output| < length ==> buffer == []
        invariant Split(all, output, Stream()) && Front() == old(Front()) + |output|
        invariant prompt && length <= |all| && length <= clock ==> left >= length - |output|
        invariant prompt && 0 < clock && length == 1 && old(Front()) in old(faults) ==> output == [] && left > 0
        decreases left
      {
        Parts(all, output, Stream());
        if left == 0 {
          return Err(TimedOut), |output|;
        }
        var data;
        data, left := Poll(length - |output|, left);
        if data.Err? {
          return Err(data.error), |output|;
        }
        MoreRead(all, output, data.value, buffer, incoming);
        output := output + data.value;
      }
      Parts(all, output, Stream());
      return Ok(output), 0;
    }

    /** bytes.find of the newline. */
    method FindNewline() returns (at: int)
      ensures -1 <= at < |buffer|
      ensures at < 0 ==> NEWLINE !in buffer
      ensures at >= 0 ==> buffer[at] == NEWLINE && NEWLINE !in buffer[..at]
    {
      at := 0;
      while at < |buffer|
        invariant 0 <= at <= |buffer|
        invariant NEWLINE !in buffer[..at]
      {
        if buffer[at] == NEWLINE {
          return;
        }
        assert buffer[..at + 1] == buffer[..at] + [buffer[at]];
        at := at + 1;
      }
      assert buffer[..|buffer|] == buffer;
      at := -1;
    }

    /** read_line: the stream up to its first newline, stripped of its line end and
        decoded; when none comes in time the stream is as it was. */
    method ReadLine(clock: nat, decode: seq<byte> -> string) returns (r: Result<string, Fault>, ghost raw: seq<byte>)
      requires Valid()
      modifies `buffer, `incoming, `delivered, `faults
      ensures Valid() && Front() == old(Front()) + if r.Ok? then |raw| else 0
      ensures r.Ok? ==> raw + Stream() == old(Stream()) && IsLine(raw) && r.value == decode(Strip(raw))
      ensures r.Err? ==> Stream() == old(Stream())
      ensures r.Err? && r.error.SystemError? ==> delivered in old(faults) && faults == old(faults) - multiset{delivered}
      ensures prompt && NEWLINE in old(Stream()) && clock >= |old(incoming)| && r.Err? ==> r.error.SystemError?
    {
      hide IsLine;
      raw := [];
      var left: nat := clock;
      while true
        invariant Stream() == old(Stream()) && Front() == old(Front()) && Valid() && faults == old(faults)
        invariant prompt && clock >= |old(incoming)| ==> left >= |incoming|
        decreases left
      {
        var newline := FindNewline();
        if newline >= 0 {
          FirstLine(buffer, incoming, newline);
          var line := TakeLine(newline);
          return Ok(decode(Strip(line))), line;
        }
        StillToCome(buffer, incoming);
        if left == 0 {
          return Err(TimedOut), raw;
        }
        var data;
        data, left := Poll(4096, left);
        if data.Err? {
          return Err(data.error), raw;
        }
        JoinedStream(buffer, data.value, incoming);
        buffer := buffer + data.value;
      }
    }

    /** The part of the buffer up to the newline. */
    method TakeLine(newline: nat) returns (line: seq<byte>)
      requires newline < |buffer|
      modifies `buffer
      ensures line == old(buffer)[..newline + 1] && buffer == old(buffer)[newline + 1..]
      ensures |line| + |buffer| == |old(buffer)|
    {
      line := buffer[..newline + 1];
      buffer := buffer[newline + 1..];
    }
  }

  lemma JoinedStream(a: seq<byte>, b: seq<byte>, c: seq<byte>)
    ensures a + (b + c) == a + b + c
  {
  }

  ghost predicate Split(all: seq<byte>, taken: seq<byte>, rest: seq<byte>) { all == taken + rest }

  lemma Halves(buffer: seq<byte>, take: nat, incoming: seq<byte>)
    requires take <= |buffer|
    ensures Split(buffer + incoming, buffer[..take], buffer[take..] + incoming)
  {
    assert buffer == buffer[..take] + buffer[take..];
  }

  lemma Parts(all: seq<byte>, taken: seq<byte>, rest: seq<byte>)
    requires Split(all, taken, rest)
    ensures |all| == |taken| + |rest| && taken == all[..|taken|] && rest == all[|taken|..]
  {
  }

  lemma MoreRead(all: seq<byte>, taken: seq<byte>, data: seq<byte>, buffer: seq<byte>, incoming: seq<byte>)
    requires buffer == [] && Split(all, taken, buffer + (data + incoming))
    ensures Split(all, taken + data, buffer + incoming)
  {
    assert buffer + incoming == incoming && buffer + (data + incoming) == data + incoming;
    assert taken + (data + incoming) == taken + data + incoming;
  }

  predicate LineEnd(b: byte) { b == NEWLINE || b == 13 }

  /** What is left of a line without the line ends at its end. */
  predicate StripOf(s: seq<byte>, raw: seq<byte>) {
    s <= raw && (forall k :: |s| <= k < |raw| ==> LineEnd(raw[k])) && (s != [] ==> !LineEnd(s[|s| - 1]))
  }

  /** bytes.rstrip. */
  function Strip(raw: seq<byte>): (s: seq<byte>)
    ensures StripOf(s, raw)
  {
    if raw != [] && LineEnd(raw[|raw| - 1]) then Strip(raw[..|raw| - 1]) else raw
  }

  predicate IsLine(s: seq<byte>) {
    s != [] && s[|s| - 1] == NEWLINE && NEWLINE !in s[..|s| - 1]
  }

  lemma ShorterLine(a: seq<byte>, b: seq<byte>, x: seq<byte>, y: seq<byte>)
    requires IsLine(a) && a + x == b + y && |a| < |b|
    ensures NEWLINE in b[..|b| - 1]
  {
    assert (a + x)[|a| - 1] == a[|a| - 1];
    assert (b + y)[|a| - 1] == b[..|b| - 1][|a| - 1];
  }

  lemma FirstLine(buffer: seq<byte>, incoming: seq<byte>, n: nat)
    requires n < |buffer| && buffer[n] == NEWLINE && NEWLINE !in buffer[..n]
    ensures buffer[..n + 1] + (buffer[n + 1..] + incoming) == buffer + incoming
    ensures IsLine(buffer[..n + 1])
  {
    assert buffer[..n + 1][..n] == buffer[..n];
  }

  lemma StillToCome(buffer: seq<byte>, incoming: seq<byte>)
    requires NEWLINE !in buffer
    ensures NEWLINE in buffer + incoming ==> |incoming| > 0
  {
  }

  /** A stream has one first line. */
  lemma LineUnique(a: seq<byte>, b: seq<byte>, x: seq<byte>, y: seq<byte>)
    requires IsLine(a) && IsLine(b) && a + x == b + y
    ensures a == b && x == y
  {
    if |a| < |b| {
      ShorterLine(a, b, x, y);
    }
    if |b| < |a| {
      ShorterLine(b, a, y, x);
    }
    assert (a + x)[..|a|] == a && (b + y)[..|b|] == b;
    assert (a + x)[|a|..] == x && (b + y)[|b|..] == y;
  }
}
