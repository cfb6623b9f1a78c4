/** The LZ4 block codec of tools/firmware-flasher/pmosrec_v3.py.

    A block is described by a grammar (`Block`), by the bytes that spell it
    (`Spell`) and by the bytes it stands for (`Expand`).  The decoder accepts
    exactly the spellings of well-formed blocks and returns their expansion;
    the compressor always emits the spelling of a block that expands to its
    input. */
module Lz4 {
  import opened Bytes

  datatype Error =
    | TruncatedLiteralLength
    | InvalidLiteralRun
    | TruncatedMatchOffset
    | InvalidMatchOffset
    | TruncatedMatchLength
    | OutputExceedsCapacity

  /** `Last` is a token with literals and nothing after it (its low nibble is
      ignored); `Empty` ends a block right after a match. */
  datatype Block =
    | Empty
    | Last(finalLiterals: seq<byte>, lowNibble: nat)
    | Copy(literals: seq<byte>, distance: nat, length: nat, rest: Block)

  // ---------------------------------------------------------------- grammar

  /** The continuation bytes of an extended length. */
  function Extension(value: nat): (s: seq<byte>)
    ensures |s| == value / 255 + 1
  {
    if value >= 255 then [255] + Extension(value - 255) else [value]
  }

  /** How a length beyond its four-bit field continues. */
  function LengthTail(value: nat): (s: seq<byte>)
    ensures |s| == if value >= 15 then (value - 15) / 255 + 1 else 0
  {
    if value >= 15 then Extension(value - 15) else []
  }

  function LiteralPart(literals: seq<byte>): seq<byte> {
    LengthTail(|literals|) + literals
  }

  function MatchPart(distance: nat, length: nat): seq<byte>
    requires distance < 65536 && 4 <= length
  {
    [distance % 256, distance / 256] + LengthTail(length - 4)
  }

  function Token(literals: nat, match_: nat): byte {
    Min(literals, 15) * 16 + Min(match_, 15)
  }

  /** A token, its literals and its match, as they appear in a block. */
  function SequenceBytes(literals: seq<byte>, distance: nat, length: nat): seq<byte>
    requires distance < 65536 && 4 <= length
  {
    [Token(|literals|, length - 4)] + (LiteralPart(literals) + MatchPart(distance, length))
  }

  function High(token: byte): nat { token / 16 }

  function Low(token: byte): nat { token % 16 }

  lemma TokenParts(token: byte, high: nat, low: nat)
    requires high < 16 && low < 16 && token == high * 16 + low
    ensures High(token) == high && Low(token) == low
  {
  }

  /** What a match copies: `length` bytes, each read `distance` back from the
      end of the output so far, so source and destination may overlap. */
  function CopyBack(out: seq<byte>, distance: nat, length: nat): (r: seq<byte>)
    requires 0 < distance <= |out|
    ensures |r| == |out| + length
    ensures out <= r
    decreases length
  {
    if length == 0 then out else CopyBack(out + [out[|out| - distance]], distance, length - 1)
  }

  predicate WellFormed(b: Block, produced: nat) {
    match b
    case Empty => true
    case Last(_, low) => low < 16
    case Copy(lits, distance, length, rest) =>
      && 0 < distance < 65536 && distance <= produced + |lits|
      && 4 <= length
      && WellFormed(rest, produced + |lits| + length)
  }

  function Spell(b: Block, produced: nat): seq<byte>
    requires WellFormed(b, produced)
  {
    match b
    case Empty => []
    case Last(lits, low) => [Min(|lits|, 15) * 16 + low] + LiteralPart(lits)
    case Copy(lits, distance, length, rest) =>
      SequenceBytes(lits, distance, length) + Spell(rest, produced + |lits| + length)
  }

  function Expand(b: Block, out: seq<byte>): (r: seq<byte>)
    requires WellFormed(b, |out|)
    ensures out <= r
    decreases b
  {
    match b
    case Empty => out
    case Last(lits, _) => out + lits
    case Copy(lits, distance, length, rest) =>
      Expand(rest, CopyBack(out + lits, distance, length))
  }

  // ---------------------------------------------------------------- decoder

  /** A little-endian 16-bit field. */
  function Word(low: byte, high: byte): nat { low + 256 * high }

  /** Adds continuation bytes to `acc` until one differs from 255; `None` when
      the input ends first.  Yields the sum and the position after it. */
  function ReadExtension(data: seq<byte>, si: nat, acc: nat): (r: Option<(nat, nat)>)
    requires si <= |data|
    ensures r.Some? ==> si < r.value.1 <= |data| && acc <= r.value.0
    decreases |data| - si
  {
    if si >= |data| then None
    else if data[si] != 255 then Some((acc + data[si], si + 1))
    else ReadExtension(data, si + 1, acc + 255)
  }

  function ReadLength(nibble: nat, data: seq<byte>, si: nat): (r: Option<(nat, nat)>)
    requires si <= |data|
    ensures r.Some? ==> si <= r.value.1 <= |data| && nibble <= r.value.0
  {
    if nibble == 15 then ReadExtension(data, si, 15) else Some((nibble, si))
  }

  datatype Step = Stop(result: Result<seq<byte>, Error>) | Continue(si: nat, out: seq<byte>)

  /** One token with its literals and its match. */
  function DecodeStep(data: seq<byte>, si: nat, out: seq<byte>, capacity: nat): (s: Step)
    requires si < |data|
    ensures s.Continue? ==> si < s.si <= |data| && |out| < |s.out| <= capacity
    ensures s.Stop? && s.result.Ok? ==> |s.result.value| <= capacity
  {
    match ReadLength(High(data[si]), data, si + 1)
    case None => Stop(Err(TruncatedLiteralLength))
    case Some((literals, start)) =>
      if start + literals > |data| || |out| + literals > capacity then Stop(Err(InvalidLiteralRun)) else
      var out1 := out + data[start..start + literals];
      var next := start + literals;
      if next == |data| then Stop(Ok(out1))
      else if next + 2 > |data| then Stop(Err(TruncatedMatchOffset)) else
      var distance: nat := Word(data[next], data[next + 1]);
      if distance == 0 || distance > |out1| then Stop(Err(InvalidMatchOffset)) else
      match ReadLength(Low(data[si]), data, next + 2)
      case None => Stop(Err(TruncatedMatchLength))
      case Some((extra, resume)) =>
        if |out1| + extra + 4 > capacity then Stop(Err(OutputExceedsCapacity))
        else Continue(resume, CopyBack(out1, distance, extra + 4))
  }

  /** The decoder as a function of the cursor and the output so far. */
  function DecodeFrom(data: seq<byte>, si: nat, out: seq<byte>, capacity: nat): (r: Result<seq<byte>, Error>)
    requires si <= |data|
    ensures r.Ok? && |out| <= capacity ==> |r.value| <= capacity
    decreases |data| - si
  {
    if si == |data| then Ok(out) else
    match DecodeStep(data, si, out, capacity)
    case Stop(result) => result
    case Continue(resume, more) => DecodeFrom(data, resume, more, capacity)
  }

  function Decode(data: seq<byte>, capacity: nat): Result<seq<byte>, Error> {
    DecodeFrom(data, 0, [], capacity)
  }

  /** The length loop of lz4_decompress_block, which appears there for literals
      and for matches. */
  method ReadLengthBytes(data: seq<byte>, start: nat, acc: nat) returns (r: Option<(nat, nat)>)
    requires start <= |data|
    ensures r == ReadExtension(data, start, acc)
  {
    var si: nat, total: nat := start, acc;
    while true
      invariant start <= si <= |data|
      invariant ReadExtension(data, si, total) == ReadExtension(data, start, acc)
      decreases |data| - si
    {
      if si >= |data| {
        return None;
      }
      var value := data[si];
      si := si + 1;
      total := total + value;
      if value != 255 {
        return Some((total, si));
      }
    }
  }

  /** The byte-by-byte copy loop of lz4_decompress_block. */
  method CopyBytes(prefix: seq<byte>, distance: nat, length: nat) returns (out: seq<byte>)
    requires 0 < distance <= |prefix|
    ensures out == CopyBack(prefix, distance, length)
  {
    out := prefix;
    for n := 0 to length
      invariant distance <= |prefix| <= |out|
      invariant CopyBack(out, distance, length - n) == CopyBack(prefix, distance, length)
    {
      out := out + [out[|out| - distance]];
    }
  }

  /** One turn of the main loop of lz4_decompress_block. */
  method DecompressSequence(data: seq<byte>, start: nat, prefix: seq<byte>, capacity: nat) returns (step: Step)
    requires start < |data|
    ensures step == DecodeStep(data, start, prefix, capacity)
  {
    hide ReadExtension, CopyBack, Word, High, Low;
    var token := data[start];
    var si: nat := start + 1;
    var literalLength: nat := High(token);
    if literalLength == 15 {
      var read := ReadLengthBytes(data, si, literalLength);
      if read.None? {
        return Stop(Err(TruncatedLiteralLength));
      }
      literalLength, si := read.value.0, read.value.1;
    }
    if si + literalLength > |data| || |prefix| + literalLength > capacity {
      return Stop(Err(InvalidLiteralRun));
    }
    var out := prefix + data[si..si + literalLength];
    si := si + literalLength;
    if si == |data| {
      return Stop(Ok(out));
    }
    if si + 2 > |data| {
      return Stop(Err(TruncatedMatchOffset));
    }
    var distance: nat := Word(data[si], data[si + 1]);
    si := si + 2;
    if distance == 0 || distance > |out| {
      return Stop(Err(InvalidMatchOffset));
    }
    var matchLength: nat := Low(token);
    if matchLength == 15 {
      var read := ReadLengthBytes(data, si, matchLength);
      if read.None? {
        return Stop(Err(TruncatedMatchLength));
      }
      matchLength, si := read.value.0, read.value.1;
    }
    matchLength := matchLength + 4;
    if |out| + matchLength > capacity {
      return Stop(Err(OutputExceedsCapacity));
    }
    out := CopyBytes(out, distance, matchLength);
    step := Continue(si, out);
  }

  /** lz4_decompress_block. */
  method DecompressBlock(data: seq<byte>, capacity: nat) returns (r: Result<seq<byte>, Error>)
    ensures r == Decode(data, capacity)
    ensures r.Ok? ==> |r.value| <= capacity
  {
    var si: nat, out: seq<byte> := 0, [];
    while si < |data|
      invariant si <= |data| && |out| <= capacity
      invariant DecodeFrom(data, si, out, capacity) == Decode(data, capacity)
    {
      var step := DecompressSequence(data, si, out, capacity);
      match step
      case Stop(result) => return result;
      case Continue(next, more) => si, out := next, more;
    }
    r := Ok(out);
  }

  // ------------------------------------------- the decoder against the grammar

  /** Reading continuation bytes undoes writing them, whatever follows. */
  lemma {:induction false} ReadExtensionSpelled(data: seq<byte>, si: nat, acc: nat, value: nat)
    requires si + |Extension(value)| <= |data|
    requires data[si..si + |Extension(value)|] == Extension(value)
    ensures ReadExtension(data, si, acc) == Some((acc + value, si + |Extension(value)|))
    decreases value
  {
    var e := Extension(value);
    assert data[si] == data[si..si + |e|][0] == e[0];
    if value >= 255 {
      assert data[si + 1..si + |e|] == data[si..si + |e|][1..] == e[1..] == Extension(value - 255);
      ReadExtensionSpelled(data, si + 1, acc + 255, value - 255);
    }
  }

  /** Only a spelled extension can be read. */
  lemma {:induction false} ReadExtensionInverse(data: seq<byte>, si: nat, acc: nat)
    requires si <= |data| && ReadExtension(data, si, acc).Some?
    ensures var (total, end) := ReadExtension(data, si, acc).value;
            data[si..end] == Extension(total - acc)
    decreases |data| - si
  {
    if data[si] == 255 {
      ReadExtensionInverse(data, si + 1, acc + 255);
      var (total, end) := ReadExtension(data, si, acc).value;
      assert data[si..end] == [255] + data[si + 1..end];
    }
  }

  /** `part` sits in `data` at `pos`. */
  predicate At(data: seq<byte>, pos: nat, part: seq<byte>) {
    pos + |part| <= |data| && data[pos..pos + |part|] == part
  }

  lemma AtSplit(data: seq<byte>, pos: nat, a: seq<byte>, b: seq<byte>)
    requires At(data, pos, a + b)
    ensures At(data, pos, a) && At(data, pos + |a|, b)
  {
    assert data[pos..pos + |a|] == data[pos..pos + |a + b|][..|a|];
    assert data[pos + |a|..pos + |a| + |b|] == data[pos..pos + |a + b|][|a|..];
  }

  lemma AtJoin(data: seq<byte>, pos: nat, a: seq<byte>, b: seq<byte>)
    requires At(data, pos, a) && At(data, pos + |a|, b)
    ensures At(data, pos, a + b)
  {
    assert data[pos..pos + |a + b|] == data[pos..pos + |a|] + data[pos + |a|..pos + |a| + |b|];
  }

  lemma ReadLengthSpelled(data: seq<byte>, si: nat, value: nat)
    requires At(data, si, LengthTail(value))
    ensures ReadLength(Min(value, 15), data, si) == Some((value, si + |LengthTail(value)|))
  {
    if value >= 15 {
      ReadExtensionSpelled(data, si, 15, value - 15);
    }
  }

  /** Cutting the literals of a sequence out of the input. */
  lemma LiteralsSpelled(data: seq<byte>, si: nat, lits: seq<byte>)
    requires At(data, si, LiteralPart(lits))
    ensures var start := si + |LengthTail(|lits|)|;
            && ReadLength(Min(|lits|, 15), data, si) == Some((|lits|, start))
            && start + |lits| <= |data| && data[start..start + |lits|] == lits
  {
    AtSplit(data, si, LengthTail(|lits|), lits);
    ReadLengthSpelled(data, si, |lits|);
  }

  lemma MatchSpelled(data: seq<byte>, si: nat, distance: nat, length: nat)
    requires distance < 65536 && 4 <= length
    requires At(data, si, MatchPart(distance, length))
    ensures si + 2 <= |data| && Word(data[si], data[si + 1]) == distance
    ensures ReadLength(Min(length - 4, 15), data, si + 2) == Some((length - 4, si + |MatchPart(distance, length)|))
  {
    hide LengthTail, ReadLength;
    var field: seq<byte> := [distance % 256, distance / 256];
    AtSplit(data, si, field, LengthTail(length - 4));
    assert data[si] == data[si..si + 2][0] && data[si + 1] == data[si..si + 2][1];
    ReadLengthSpelled(data, si + 2, length - 4);
  }

  /** `data[si..]` opens with the copy sequence `lits`, `distance`, `length`,
      which ends at `end`. */
  predicate CopyAt(data: seq<byte>, si: nat, lits: seq<byte>, distance: nat, length: nat, end: nat) {
    var start := si + 1 + |LengthTail(|lits|)|;
    var next := start + |lits|;
    && 0 < distance && 4 <= length
    && next + 2 <= end <= |data|
    && data[si] == Token(|lits|, length - 4)
    && ReadLength(Min(|lits|, 15), data, si + 1) == Some((|lits|, start))
    && data[start..next] == lits
    && Word(data[next], data[next + 1]) == distance
    && ReadLength(Min(length - 4, 15), data, next + 2) == Some((length - 4, end))
  }

  lemma SequenceSpelled(data: seq<byte>, si: nat, lits: seq<byte>, distance: nat, length: nat)
    requires 0 < distance < 65536 && 4 <= length
    requires At(data, si, SequenceBytes(lits, distance, length))
    ensures CopyAt(data, si, lits, distance, length, si + |SequenceBytes(lits, distance, length)|)
  {
    hide At, LengthTail, ReadLength, Word;
    var head: seq<byte> := [Token(|lits|, length - 4)];
    AtSplit(data, si, head, LiteralPart(lits) + MatchPart(distance, length));
    AtHead(data, si, head[0]);
    AtSplit(data, si + 1, LiteralPart(lits), MatchPart(distance, length));
    LiteralsSpelled(data, si + 1, lits);
    MatchSpelled(data, si + 1 + |LiteralPart(lits)|, distance, length);
  }

  lemma AtHead(data: seq<byte>, pos: nat, b: byte)
    requires At(data, pos, [b])
    ensures pos < |data| && data[pos] == b
  {
    assert data[pos] == data[pos..pos + 1][0];
  }

  /** The step the decoder takes on a copy sequence. */
  lemma DecodeStepCopy(data: seq<byte>, si: nat, out: seq<byte>, capacity: nat,
                       lits: seq<byte>, distance: nat, length: nat, end: nat)
    requires si < |data| && CopyAt(data, si, lits, distance, length, end)
    requires distance <= |out| + |lits| && |out| + |lits| + length <= capacity
    ensures DecodeStep(data, si, out, capacity) == Continue(end, CopyBack(out + lits, distance, length))
  {
    hide LengthTail, ReadLength, Word, CopyBack, High, Low;
    TokenParts(data[si], Min(|lits|, 15), Min(length - 4, 15));
  }

  lemma DecodeLastSpelled(data: seq<byte>, si: nat, out: seq<byte>, capacity: nat, b: Block)
    requires b.Last? && SpellsRest(data, si, |out|, b)
    requires |Expand(b, out)| <= capacity
    ensures DecodeFrom(data, si, out, capacity) == Ok(Expand(b, out))
  {
    var lits := b.finalLiterals;
    var head: seq<byte> := [Min(|lits|, 15) * 16 + b.lowNibble];
    AtSplit(data, si, head, LiteralPart(lits));
    AtHead(data, si, head[0]);
    TokenParts(data[si], Min(|lits|, 15), b.lowNibble);
    LiteralsSpelled(data, si + 1, lits);
  }

  lemma DecodeEmptySpelled(data: seq<byte>, si: nat, out: seq<byte>, capacity: nat)
    requires SpellsRest(data, si, |out|, Empty)
    ensures DecodeFrom(data, si, out, capacity) == Ok(Expand(Empty, out))
  {
  }

  /** The decoder turns every spelled block into its expansion. */
  lemma {:induction false} DecodeSpelled(data: seq<byte>, si: nat, out: seq<byte>, capacity: nat, b: Block)
    requires SpellsRest(data, si, |out|, b)
    requires |Expand(b, out)| <= capacity
    ensures DecodeFrom(data, si, out, capacity) == Ok(Expand(b, out))
    decreases b
  {
    hide At, DecodeFrom, CopyBack, SequenceBytes, SpellsRest, Expand, Spell, WellFormed;
    match b
    case Empty => DecodeEmptySpelled(data, si, out, capacity);
    case Last(_, _) => DecodeLastSpelled(data, si, out, capacity, b);
    case Copy(lits, distance, length, rest) =>
      CopySpelled(data, si, out, b);
      DecodeSequence(data, si, out, capacity, lits, distance, length);
      DecodeSpelled(data, si + |SequenceBytes(lits, distance, length)|, CopyBack(out + lits, distance, length),
                    capacity, rest);
  }

  /** A spelled sequence comes first, then the rest of the block. */
  lemma CopySpelled(data: seq<byte>, si: nat, out: seq<byte>, b: Block)
    requires b.Copy? && SpellsRest(data, si, |out|, b)
    ensures 0 < b.distance < 65536 && 4 <= b.length && b.distance <= |out| + |b.literals|
    ensures var item := SequenceBytes(b.literals, b.distance, b.length);
            var next := CopyBack(out + b.literals, b.distance, b.length);
            && At(data, si, item) && SpellsRest(data, si + |item|, |next|, b.rest)
            && Expand(b, out) == Expand(b.rest, next) && |next| <= |Expand(b, out)|
  {
    hide At, CopyBack, SequenceBytes;
    var next := CopyBack(out + b.literals, b.distance, b.length);
    AtSplit(data, si, SequenceBytes(b.literals, b.distance, b.length), Spell(b.rest, |next|));
  }

  lemma ReadLengthInverse(data: seq<byte>, si: nat, nibble: nat)
    requires si <= |data| && nibble < 16 && ReadLength(nibble, data, si).Some?
    ensures var (value, end) := ReadLength(nibble, data, si).value;
            Min(value, 15) == nibble && At(data, si, LengthTail(value)) && end == si + |LengthTail(value)|
  {
    if nibble == 15 {
      ReadExtensionInverse(data, si, 15);
    }
  }

  /** A continuing step consumed a copy sequence. */
  lemma DecodeStepInverse(data: seq<byte>, si: nat, out: seq<byte>, capacity: nat)
    returns (lits: seq<byte>, distance: nat, length: nat)
    requires si < |data| && DecodeStep(data, si, out, capacity).Continue?
    ensures 4 <= length && 0 < distance <= |out| + |lits| && distance < 65536
    ensures At(data, si, SequenceBytes(lits, distance, length))
    ensures var step := DecodeStep(data, si, out, capacity);
            && step.out == CopyBack(out + lits, distance, length)
            && step.si == si + |SequenceBytes(lits, distance, length)|
  {
    hide At, ReadLength, LengthTail, CopyBack;
    var (n, start) := ReadLength(High(data[si]), data, si + 1).value;
    ReadLengthInverse(data, si + 1, High(data[si]));
    lits := data[start..start + n];
    var next := start + n;
    distance := Word(data[next], data[next + 1]);
    var (extra, resume) := ReadLength(Low(data[si]), data, next + 2).value;
    ReadLengthInverse(data, next + 2, Low(data[si]));
    length := extra + 4;
    AtSlice(data, start, next);
    AtJoin(data, si + 1, LengthTail(n), lits);
    AtSlice(data, next, next + 2);
    assert data[next..next + 2] == [distance % 256, distance / 256];
    AtJoin(data, next, [distance % 256, distance / 256], LengthTail(extra));
    AtSlice(data, si, si + 1);
    assert data[si..si + 1] == [Token(n, extra)];
    SequenceJoin(data, si, lits, distance, length);
  }

  lemma SequenceJoin(data: seq<byte>, si: nat, lits: seq<byte>, distance: nat, length: nat)
    requires distance < 65536 && 4 <= length
    requires At(data, si, [Token(|lits|, length - 4)]) && At(data, si + 1, LiteralPart(lits))
    requires At(data, si + 1 + |LiteralPart(lits)|, MatchPart(distance, length))
    ensures At(data, si, SequenceBytes(lits, distance, length))
  {
    hide At, LiteralPart, MatchPart;
    AtJoin(data, si + 1, LiteralPart(lits), MatchPart(distance, length));
    AtJoin(data, si, [Token(|lits|, length - 4)], LiteralPart(lits) + MatchPart(distance, length));
  }

  lemma AtSlice(data: seq<byte>, from: nat, to: nat)
    requires from <= to <= |data|
    ensures At(data, from, data[from..to])
  {
  }

  lemma DecodeLastInverse(data: seq<byte>, si: nat, out: seq<byte>, capacity: nat) returns (b: Block)
    requires si < |data| && DecodeStep(data, si, out, capacity).Stop?
    requires DecodeStep(data, si, out, capacity).result.Ok?
    ensures b.Last? && SpellsRest(data, si, |out|, b)
    ensures DecodeStep(data, si, out, capacity).result.value == out + b.finalLiterals
  {
    hide At, ReadLength, LengthTail, CopyBack;
    var (n, start) := ReadLength(High(data[si]), data, si + 1).value;
    ReadLengthInverse(data, si + 1, High(data[si]));
    var lits := data[start..start + n];
    b := Last(lits, Low(data[si]));
    AtSlice(data, start, start + n);
    AtJoin(data, si + 1, LengthTail(n), lits);
    AtSlice(data, si, si + 1);
    assert data[si..si + 1] == [Min(n, 15) * 16 + b.lowNibble];
    AtJoin(data, si, [Min(n, 15) * 16 + b.lowNibble], LiteralPart(lits));
  }

  /** `b` spells the whole rest of the input. */
  predicate SpellsRest(data: seq<byte>, si: nat, produced: nat, b: Block) {
    WellFormed(b, produced) && At(data, si, Spell(b, produced)) && si + |Spell(b, produced)| == |data|
  }

  lemma DecodeStepExtends(data: seq<byte>, si: nat, out: seq<byte>, capacity: nat, rest: Block) returns (b: Block)
    requires si < |data| && DecodeStep(data, si, out, capacity).Continue?
    requires var step := DecodeStep(data, si, out, capacity);
             SpellsRest(data, step.si, |step.out|, rest)
    ensures SpellsRest(data, si, |out|, b)
    ensures Expand(b, out) == Expand(rest, DecodeStep(data, si, out, capacity).out)
  {
    hide At, DecodeStep, CopyBack, SequenceBytes;
    var lits, distance, length := DecodeStepInverse(data, si, out, capacity);
    b := Copy(lits, distance, length, rest);
    AtJoin(data, si, SequenceBytes(lits, distance, length), Spell(rest, |out| + |lits| + length));
  }

  /** Whatever the decoder accepts is the spelling of a well-formed block, and
      the output is that block's expansion. */
  lemma {:induction false} DecodeInverse(data: seq<byte>, si: nat, out: seq<byte>, capacity: nat) returns (b: Block)
    requires si <= |data| && DecodeFrom(data, si, out, capacity).Ok?
    ensures SpellsRest(data, si, |out|, b)
    ensures DecodeFrom(data, si, out, capacity).value == Expand(b, out)
    decreases |data| - si
  {
    if si == |data| {
      b := Empty;
    } else {
      hide SpellsRest, DecodeStep;
      match DecodeStep(data, si, out, capacity)
      case Stop(_) =>
        b := DecodeLastInverse(data, si, out, capacity);
      case Continue(resume, more) =>
        var rest := DecodeInverse(data, resume, more, capacity);
        b := DecodeStepExtends(data, si, out, capacity, rest);
    }
  }

  /** The decoder accepts a byte string exactly when it spells some well-formed
      block whose expansion fits, and it returns that expansion. */
  lemma DecodeIffSpelled(data: seq<byte>, capacity: nat, r: seq<byte>)
    ensures Decode(data, capacity) == Ok(r)
       <==> exists b :: WellFormed(b, 0) && Spell(b, 0) == data && Expand(b, []) == r && |r| <= capacity
  {
    if Decode(data, capacity) == Ok(r) {
      var b := DecodeInverse(data, 0, [], capacity);
      assert Spell(b, 0) == data[0..|data|] == data;
    }
    forall b | WellFormed(b, 0) && Spell(b, 0) == data && Expand(b, []) == r && |r| <= capacity
      ensures Decode(data, capacity) == Ok(r)
    {
      assert data[0..|data|] == data;
      DecodeSpelled(data, 0, [], capacity, b);
    }
  }

  // -------------------------------------------------------------- compressor

  /** The compressor's hash-table key: four bytes read little-endian. */
  function Key(data: seq<byte>, i: nat): nat
    requires i + 4 <= |data|
  {
    Word(data[i], data[i + 1]) + 65536 * Word(data[i + 2], data[i + 3])
  }

  lemma {:induction false} CopyBackRepeats(data: seq<byte>, candidate: nat, i: nat, length: nat)
    requires candidate < i && i + length <= |data|
    requires data[candidate..candidate + length] == data[i..i + length]
    ensures CopyBack(data[..i], i - candidate, length) == data[..i + length]
    decreases length
  {
    if length > 0 {
      var source, target := data[candidate..candidate + length], data[i..i + length];
      assert data[candidate] == source[0] && data[i] == target[0];
      assert data[..i] + [data[..i][candidate]] == data[..i + 1];
      assert data[candidate + 1..candidate + length] == source[1..] && data[i + 1..i + length] == target[1..];
      CopyBackRepeats(data, candidate + 1, i + 1, length - 1);
    }
  }

  /** Decoding one more sequence. */
  lemma DecodeSequence(data: seq<byte>, si: nat, out: seq<byte>, capacity: nat,
                       lits: seq<byte>, distance: nat, length: nat)
    requires 0 < distance < 65536 && 4 <= length && distance <= |out| + |lits|
    requires At(data, si, SequenceBytes(lits, distance, length))
    requires |out| + |lits| + length <= capacity
    ensures DecodeFrom(data, si, out, capacity)
         == DecodeFrom(data, si + |SequenceBytes(lits, distance, length)|, CopyBack(out + lits, distance, length),
                       capacity)
  {
    hide CopyAt, SequenceBytes, CopyBack, DecodeStep;
    SequenceNonempty(lits, distance, length);
    SequenceSpelled(data, si, lits, distance, length);
    DecodeStepCopy(data, si, out, capacity, lits, distance, length, si + |SequenceBytes(lits, distance, length)|);
  }

  lemma SequenceNonempty(lits: seq<byte>, distance: nat, length: nat)
    requires distance < 65536 && 4 <= length
    ensures 0 < |SequenceBytes(lits, distance, length)|
  {
  }

  /** The bytes of the token that closes every block. */
  function FinalBytes(lits: seq<byte>): seq<byte> {
    [Min(|lits|, 15) * 16] + LiteralPart(lits)
  }

  /** A sequence costs at most its own bytes and one per 255 literals. */
  lemma SequenceLength(spent: nat, anchor: nat, lits: seq<byte>, distance: nat, length: nat)
    requires spent <= anchor + anchor / 255
    requires distance < 65536 && 4 <= length
    ensures var anchor' := anchor + |lits| + length;
            spent + |SequenceBytes(lits, distance, length)| <= anchor' + anchor' / 255
  {
    var n, m := |lits|, length - 4;
    assert |LengthTail(n)| <= 1 + n / 255;
    assert |LengthTail(m)| <= m;
    assert anchor / 255 + n / 255 <= (anchor + n + length) / 255;
  }

  /** _encode_length. */
  method EncodeLength(value: nat) returns (output: seq<byte>)
    ensures output == Extension(value)
  {
    output := [];
    var left := value;
    while left >= 255
      invariant output + Extension(left) == Extension(value)
    {
      assert output + Extension(left) == (output + [255]) + Extension(left - 255);
      output := output + [255];
      left := left - 255;
    }
    output := output + [left];
  }

  /** The longest block made from n bytes. */
  function Bound(n: nat): nat { n + n / 255 + 2 }

  lemma FinalLength(literals: seq<byte>)
    ensures |FinalBytes(literals)| <= |literals| + 2 + |literals| / 255
  {
  }

  lemma Quotients(a: nat, b: nat)
    ensures a / 255 + b / 255 <= (a + b) / 255
  {
  }

  predicate SameFour(data: seq<byte>, a: nat, b: nat)
    requires a + 4 <= |data| && b + 4 <= |data|
  {
    data[a..a + 4] == data[b..b + 4]
  }

  // ------------------------------------------------------------ greedy blocks

  /** The four bytes at p occur earlier, within reach of a match. */
  ghost predicate Repeats(data: seq<byte>, p: nat) {
    p + 4 <= |data| && exists q: nat :: q < p && p - q <= 0xFFFF && SameFour(data, q, p)
  }

  /** No position of a literal run could have started a match. */
  ghost predicate NoRepeat(data: seq<byte>, from: nat, to: nat) {
    forall p: nat :: from <= p < to ==> !Repeats(data, p)
  }

  /** The nearest earlier occurrence of the four bytes at p, within reach. */
  ghost predicate Nearest(data: seq<byte>, q: nat, p: nat) {
    && q < p && p - q <= 0xFFFF && p + 4 <= |data| && SameFour(data, q, p)
    && forall r: nat :: q < r < p ==> !SameFour(data, r, p)
  }

  /** The bytes from q and from p agree for this long and no longer. */
  predicate Longest(data: seq<byte>, q: nat, p: nat, length: nat) {
    && 4 <= length && q < p && p + length <= |data| && data[q..q + length] == data[p..p + length]
    && (p + length < |data| ==> data[q + length] != data[p + length])
  }

  /** The block describes `data[at..]`: literals up to the first position whose
      four bytes occur within reach, the longest match with their nearest
      occurrence, and so on. */
  ghost predicate Greedy(b: Block, data: seq<byte>, at: nat)
    decreases b
  {
    match b
    case Empty => false
    case Last(lits, low) => at <= |data| && low == 0 && lits == data[at..] && NoRepeat(data, at, |data|)
    case Copy(lits, distance, length, rest) =>
      var p := at + |lits|;
      && p <= |data| && lits == data[at..p] && NoRepeat(data, at, p)
      && 0 < distance <= p && Nearest(data, p - distance, p) && Longest(data, p - distance, p, length)
      && Greedy(rest, data, p + length)
  }

  /** The block of an input: nothing for nothing. */
  ghost predicate GreedyBlock(data: seq<byte>, b: Block) {
    WellFormed(b, 0) && if data == [] then b == Empty else Greedy(b, data, 0)
  }

  /** The first match of a greedy block. */
  lemma FirstMatch(b: Block, data: seq<byte>, at: nat)
    requires Greedy(b, data, at) && b.Copy?
    ensures var p := at + |b.literals|;
            && p <= |data| && b.literals == data[at..p] && NoRepeat(data, at, p)
            && 0 < b.distance <= p && b.distance <= 0xFFFF && 4 <= b.length && p + b.length <= |data|
            && Nearest(data, p - b.distance, p) && Longest(data, p - b.distance, p, b.length)
            && data[p - b.distance..p - b.distance + b.length] == data[p..p + b.length]
            && Greedy(b.rest, data, p + b.length)
  {
    hide NoRepeat;
  }

  lemma OnlyLiterals(b: Block, data: seq<byte>, at: nat)
    requires Greedy(b, data, at) && !b.Copy?
    ensures at <= |data| && b == Last(data[at..], 0) && NoRepeat(data, at, |data|)
  {
    hide NoRepeat;
  }

  /** A greedy block is well formed and stands for the input. */
  lemma {:induction false} GreedyExpands(b: Block, data: seq<byte>, at: nat)
    requires Greedy(b, data, at) && at <= |data|
    ensures WellFormed(b, at) && Expand(b, data[..at]) == data
    decreases b
  {
    hide NoRepeat, CopyBack, Greedy, Nearest, Longest;
    if b.Copy? {
      FirstMatch(b, data, at);
      var p := at + |b.literals|;
      assert data[..at] + b.literals == data[..p];
      CopyBackRepeats(data, p - b.distance, p, b.length);
      GreedyExpands(b.rest, data, p + b.length);
    } else {
      OnlyLiterals(b, data, at);
      assert data[..at] + data[at..] == data;
    }
  }

  /** There is no more than one. */
  lemma {:induction false} GreedyOnce(a: Block, b: Block, data: seq<byte>, at: nat)
    requires Greedy(a, data, at) && Greedy(b, data, at)
    ensures a == b
    decreases a
  {
    hide NoRepeat, Greedy, Nearest, Longest;
    if a.Copy? && b.Copy? {
      FirstMatch(a, data, at);
      FirstMatch(b, data, at);
      var p, q := at + |a.literals|, at + |b.literals|;
      SameStart(data, at, p, q, p - a.distance, q - b.distance);
      NearestOnce(data, p - a.distance, p - b.distance, p);
      LongestOnce(data, p - a.distance, p, a.length, b.length);
      GreedyOnce(a.rest, b.rest, data, p + a.length);
    } else if a.Copy? || b.Copy? {
      var copy, last := if a.Copy? then a else b, if a.Copy? then b else a;
      FirstMatch(copy, data, at);
      OnlyLiterals(last, data, at);
      NotOnlyLiterals(data, at, at + |copy.literals|, copy.distance);
    } else {
      OnlyLiterals(a, data, at);
      OnlyLiterals(b, data, at);
    }
  }

  lemma NotOnlyLiterals(data: seq<byte>, at: nat, p: nat, distance: nat)
    requires at <= p < |data| && distance <= p && Nearest(data, p - distance, p)
    ensures !NoRepeat(data, at, |data|)
  {
    StartRepeats(data, p - distance, p);
    hide Repeats, Nearest;
  }

  lemma StartRepeats(data: seq<byte>, q: nat, p: nat)
    requires Nearest(data, q, p)
    ensures Repeats(data, p)
  {
  }

  lemma SameStart(data: seq<byte>, at: nat, p: nat, q: nat, before: nat, other: nat)
    requires at <= p && at <= q && NoRepeat(data, at, p) && NoRepeat(data, at, q)
    requires Nearest(data, before, p) && Nearest(data, other, q)
    ensures p == q
  {
    StartRepeats(data, before, p);
    StartRepeats(data, other, q);
    hide Repeats, Nearest;
  }

  lemma NearestOnce(data: seq<byte>, a: nat, b: nat, p: nat)
    requires Nearest(data, a, p) && Nearest(data, b, p)
    ensures a == b
  {
  }

  lemma LongestOnce(data: seq<byte>, q: nat, p: nat, m: nat, n: nat)
    requires Longest(data, q, p, m) && Longest(data, q, p, n)
    ensures m == n
  {
    if m < n {
      LongerDisagrees(data, q, p, m, n);
    } else if n < m {
      LongerDisagrees(data, q, p, n, m);
    }
  }

  lemma LongerDisagrees(data: seq<byte>, q: nat, p: nat, m: nat, n: nat)
    requires m < n && Longest(data, q, p, n)
    ensures !Longest(data, q, p, m)
  {
    assert data[q + m] == data[q..q + n][m] && data[p + m] == data[p..p + n][m];
  }

  lemma BlockOnce(data: seq<byte>, a: Block, b: Block)
    requires GreedyBlock(data, a) && GreedyBlock(data, b)
    ensures a == b
  {
    if data != [] {
      GreedyOnce(a, b, data, 0);
    }
  }

  /** Greedy blocks stay within the bound. */
  lemma {:induction false} GreedyLength(b: Block, data: seq<byte>, at: nat, spent: nat)
    requires Greedy(b, data, at) && at <= |data| && WellFormed(b, at) && spent <= at + at / 255
    ensures spent + |Spell(b, at)| <= Bound(|data|)
    decreases b
  {
    hide NoRepeat, Nearest, LiteralPart, SequenceBytes;
    match b
    case Last(lits, _) =>
      FinalLength(lits);
      Quotients(at, |lits|);
    case Copy(lits, distance, length, rest) =>
      SequenceLength(spent, at, lits, distance, length);
      GreedyLength(rest, data, at + |lits| + length, spent + |SequenceBytes(lits, distance, length)|);
  }

  /** Many equal bytes are one byte and one match. */
  lemma EqualBytes(x: byte, n: nat)
    requires 5 <= n
    ensures GreedyBlock(seq(n, _ => x), Copy([x], 1, n - 1, Last([], 0)))
  {
    var data := seq(n, _ => x);
    assert data[0..1] == [x] && data[n..] == [];
    assert data[0..4] == data[1..5];
    assert data[0..n - 1] == data[1..n];
    assert Nearest(data, 0, 1) && Longest(data, 0, 1, n - 1);
    assert NoRepeat(data, 0, 1) && NoRepeat(data, n, n);
  }

  // ------------------------------------------------------ the block as it grows

  /** A match already emitted, with the literals before it. */
  datatype Item = Item(literals: seq<byte>, distance: nat, length: nat)

  function Plug(items: seq<Item>, rest: Block): Block {
    if items == [] then rest
    else Copy(items[0].literals, items[0].distance, items[0].length, Plug(items[1..], rest))
  }

  lemma {:induction false} PlugLast(items: seq<Item>, x: Item, rest: Block)
    ensures Plug(items + [x], rest) == Plug(items, Copy(x.literals, x.distance, x.length, rest))
  {
    if items == [] {
      assert (items + [x])[1..] == [];
    } else {
      assert (items + [x])[1..] == items[1..] + [x];
      PlugLast(items[1..], x, rest);
    }
  }

  /** `out` spells a greedy block up to `anchor`, whatever greedy block follows. */
  ghost predicate Packed(data: seq<byte>, items: seq<Item>, out: seq<byte>, anchor: nat) {
    anchor <= |data| && forall rest: Block :: Greedy(rest, data, anchor) ==> PackedWith(data, items, out, anchor, rest)
  }

  ghost predicate PackedWith(data: seq<byte>, items: seq<Item>, out: seq<byte>, anchor: nat, rest: Block) {
    var b := Plug(items, rest);
    && Greedy(b, data, 0) && WellFormed(b, 0) && WellFormed(rest, anchor)
    && Spell(b, 0) == out + Spell(rest, anchor)
  }

  lemma PackedStart(data: seq<byte>)
    ensures Packed(data, [], [], 0)
  {
    hide Greedy, Spell;
    forall rest: Block | Greedy(rest, data, 0)
      ensures PackedWith(data, [], [], 0, rest)
    {
      GreedyExpands(rest, data, 0);
      assert [] + Spell(rest, 0) == Spell(rest, 0);
    }
  }

  lemma PackedNext(data: seq<byte>, items: seq<Item>, out: seq<byte>, anchor: nat, candidate: nat, i: nat, length: nat)
    requires Packed(data, items, out, anchor) && anchor <= i && NoRepeat(data, anchor, i)
    requires Nearest(data, candidate, i) && Longest(data, candidate, i, length)
    ensures Packed(data, items + [Item(data[anchor..i], i - candidate, length)],
                   out + SequenceBytes(data[anchor..i], i - candidate, length), i + length)
  {
    var x := Item(data[anchor..i], i - candidate, length);
    assert x.distance < 65536 && 4 <= length;
    hide NoRepeat, Nearest, Longest, SequenceBytes, Plug, PackedWith, Greedy;
    var next := i + length;
    forall rest: Block | Greedy(rest, data, next)
      ensures PackedWith(data, items + [x], out + SequenceBytes(x.literals, x.distance, length), next, rest)
    {
      PackedOneMore(data, items, out, anchor, x, i, rest);
    }
  }

  lemma PackedOneMore(data: seq<byte>, items: seq<Item>, out: seq<byte>, anchor: nat, x: Item, i: nat, rest: Block)
    requires Packed(data, items, out, anchor) && anchor <= i && NoRepeat(data, anchor, i)
    requires 0 < x.distance <= i && x.distance < 65536 && 4 <= x.length && i <= |data| && x.literals == data[anchor..i]
    requires Nearest(data, i - x.distance, i) && Longest(data, i - x.distance, i, x.length)
    requires Greedy(rest, data, i + x.length)
    ensures PackedWith(data, items + [x], out + SequenceBytes(x.literals, x.distance, x.length), i + x.length, rest)
  {
    hide NoRepeat, Nearest, SequenceBytes, Plug, PackedWith, Spell, WellFormed;
    var copy := Copy(x.literals, x.distance, x.length, rest);
    PlugLast(items, x, rest);
    assert Greedy(copy, data, anchor);
    GreedyExpands(rest, data, i + x.length);
    PluggedSpelled(data, items, out, anchor, x, i, rest);
  }

  lemma PluggedSpelled(data: seq<byte>, items: seq<Item>, out: seq<byte>, anchor: nat, x: Item, i: nat, rest: Block)
    requires PackedWith(data, items, out, anchor, Copy(x.literals, x.distance, x.length, rest))
    requires Plug(items + [x], rest) == Plug(items, Copy(x.literals, x.distance, x.length, rest))
    requires WellFormed(rest, i + x.length) && i == anchor + |x.literals|
    ensures PackedWith(data, items + [x], out + SequenceBytes(x.literals, x.distance, x.length), i + x.length, rest)
  {
    hide Greedy, SequenceBytes, Plug;
    var sequence := SequenceBytes(x.literals, x.distance, x.length);
    assert out + (sequence + Spell(rest, i + x.length)) == out + sequence + Spell(rest, i + x.length);
  }

  lemma PackedEnd(data: seq<byte>, items: seq<Item>, out: seq<byte>, anchor: nat) returns (b: Block)
    requires data != [] && Packed(data, items, out, anchor) && NoRepeat(data, anchor, |data|)
    ensures GreedyBlock(data, b) && Spell(b, 0) == out + FinalBytes(data[anchor..])
  {
    hide NoRepeat, Plug;
    var rest := Last(data[anchor..], 0);
    assert Greedy(rest, data, anchor);
    assert PackedWith(data, items, out, anchor, rest);
    b := Plug(items, rest);
  }

  /** What a greedy block is good for: the decoder gives the input back, and the
      block is short. */
  lemma GreedyDecodes(data: seq<byte>, b: Block)
    requires GreedyBlock(data, b)
    ensures Expand(b, []) == data && |Spell(b, 0)| <= Bound(|data|)
    ensures forall capacity: nat :: |data| <= capacity ==> Decode(Spell(b, 0), capacity) == Ok(data)
  {
    if data != [] {
      GreedyExpands(b, data, 0);
      GreedyLength(b, data, 0, 0);
      assert data[..0] == [];
    }
    hide Greedy, Decode, Spell;
    forall capacity: nat | |data| <= capacity
      ensures Decode(Spell(b, 0), capacity) == Ok(data)
    {
      DecodeIffSpelled(Spell(b, 0), capacity, data);
    }
  }

  // ---------------------------------------------------------- the table of keys

  lemma KeyIff(data: seq<byte>, a: nat, b: nat)
    requires a + 4 <= |data| && b + 4 <= |data|
    ensures Key(data, a) == Key(data, b) <==> SameFour(data, a, b)
  {
    var x, y := data[a..a + 4], data[b..b + 4];
    assert x == [data[a], data[a + 1], data[a + 2], data[a + 3]];
    assert y == [data[b], data[b + 1], data[b + 2], data[b + 3]];
    WordOnce(data[a], data[a + 1], data[b], data[b + 1]);
    WordOnce(data[a + 2], data[a + 3], data[b + 2], data[b + 3]);
    KeyParts(Word(data[a], data[a + 1]), Word(data[a + 2], data[a + 3]),
             Word(data[b], data[b + 1]), Word(data[b + 2], data[b + 3]));
    hide Word;
  }

  lemma WordOnce(a: byte, b: byte, c: byte, d: byte)
    ensures Word(a, b) < 65536 && (Word(a, b) == Word(c, d) <==> a == c && b == d)
  {
  }

  lemma KeyParts(a: nat, b: nat, c: nat, d: nat)
    requires a < 65536 && c < 65536
    ensures a + 65536 * b == c + 65536 * d <==> a == c && b == d
  {
  }

  /** The table holds the latest position before i of every key. */
  ghost predicate Latest(data: seq<byte>, table: map<nat, nat>, i: nat) {
    && (forall k :: k in table ==> table[k] < i && table[k] + 4 <= |data| && Key(data, table[k]) == k)
    && (forall p: nat :: p < i && p + 4 <= |data| ==> Key(data, p) in table && p <= table[Key(data, p)])
  }

  lemma LatestNext(data: seq<byte>, table: map<nat, nat>, i: nat)
    requires i + 4 <= |data| && Latest(data, table, i)
    ensures Latest(data, table[Key(data, i) := i], i + 1)
  {
    hide Key;
  }

  /** Past the last position that has a key nothing is missing. */
  lemma LatestTail(data: seq<byte>, table: map<nat, nat>, i: nat, j: nat)
    requires Latest(data, table, i) && i <= j && |data| < i + 4
    ensures Latest(data, table, j)
  {
    hide Key;
  }

  /** What looking the key up says about earlier occurrences. */
  lemma LookedUp(data: seq<byte>, table: map<nat, nat>, i: nat)
    requires i + 4 <= |data| && Latest(data, table, i)
    ensures var key := Key(data, i);
            if key in table && i - table[key] <= 0xFFFF && SameFour(data, table[key], i)
            then Nearest(data, table[key], i)
            else !Repeats(data, i)
  {
    var key := Key(data, i);
    forall q: nat | q < i
      ensures SameFour(data, q, i) <==> Key(data, q) == key
    {
      KeyIff(data, q, i);
    }
    hide Key, SameFour;
  }

  /** A match found by lz4_compress_block. */
  method EmitMatch(data: seq<byte>, ghost items: seq<Item>, ghost out: seq<byte>, anchor: nat, candidate: nat, i: nat)
    returns (sequence: seq<byte>, length: nat)
    requires Packed(data, items, out, anchor) && anchor <= i && NoRepeat(data, anchor, i) && Nearest(data, candidate, i)
    ensures 4 <= length && i + length <= |data|
    ensures Packed(data, items + [Item(data[anchor..i], i - candidate, length)], out + sequence, i + length)
  {
    hide SequenceBytes, Packed, NoRepeat;
    length := ExtendMatch(data, candidate, i);
    sequence := EmitSequence(data[anchor..i], i - candidate, length);
    PackedNext(data, items, out, anchor, candidate, i, length);
  }

  /** lz4_compress_block: the spelling of the greedy block of the input, which the
      decoder of this module expands to the input. */
  method CompressBlock(data: seq<byte>) returns (block: seq<byte>, ghost b: Block)
    ensures GreedyBlock(data, b) && block == Spell(b, 0)
    ensures forall capacity: nat :: |data| <= capacity ==> Decode(block, capacity) == Ok(data)
    ensures |block| <= Bound(|data|)
  {
    if |data| == 0 {
      GreedyDecodes(data, Empty);
      return [], Empty;
    }
    hide FinalBytes, Packed, Decode, Key, Bound, SameFour, GreedyBlock, NoRepeat, Latest, Nearest, Repeats, Spell;
    var table: map<nat, nat> := map[];
    var out: seq<byte>, anchor: nat, i: nat, end: nat := [], 0, 0, |data|;
    ghost var items := [];
    PackedStart(data);
    NothingSkipped(data, 0);
    assert Latest(data, table, 0) by { NothingKnown(data); }
    while i + 4 <= end
      invariant anchor <= i <= end
      invariant Latest(data, table, i)
      invariant Packed(data, items, out, anchor) && NoRepeat(data, anchor, i)
      decreases end - i
    {
      LookedUp(data, table, i);
      LatestNext(data, table, i);
      var key := Key(data, i);
      var known := key in table;
      var candidate := if known then table[key] else 0;
      LatestBounds(data, table, i, key);
      table := table[key := i];
      if !known || i - candidate > 0xFFFF || !SameFour(data, candidate, i) {
        OneSkipped(data, anchor, i);
        i := i + 1;
        continue;
      }
      var sequence, length := EmitMatch(data, items, out, anchor, candidate, i);
      items := items + [Item(data[anchor..i], i - candidate, length)];
      out := out + sequence;
      var oldI := i;
      i := i + length;
      table := IndexPositions(data, table, oldI + 1, Min(i, end - 3), i);
      anchor := i;
      NothingSkipped(data, i);
    }
    ShortEnd(data, anchor, i);
    var final := EmitFinal(data[anchor..]);
    b := PackedEnd(data, items, out, anchor);
    GreedyDecodes(data, b);
    block := out + final;
  }

  lemma NothingKnown(data: seq<byte>)
    ensures Latest(data, map[], 0)
  {
  }

  lemma LatestBounds(data: seq<byte>, table: map<nat, nat>, i: nat, key: nat)
    requires Latest(data, table, i)
    ensures key in table ==> table[key] < i && table[key] + 4 <= |data|
  {
  }

  lemma NothingSkipped(data: seq<byte>, i: nat)
    ensures NoRepeat(data, i, i)
  {
  }

  lemma OneSkipped(data: seq<byte>, anchor: nat, i: nat)
    requires NoRepeat(data, anchor, i) && !Repeats(data, i)
    ensures NoRepeat(data, anchor, i + 1)
  {
  }

  /** The last three positions start no match. */
  lemma ShortEnd(data: seq<byte>, anchor: nat, i: nat)
    requires NoRepeat(data, anchor, i) && |data| < i + 4
    ensures NoRepeat(data, anchor, |data|)
  {
  }

  /** The bytes lz4_compress_block appends for a match. */
  method EmitSequence(literals: seq<byte>, distance: nat, length: nat) returns (out: seq<byte>)
    requires distance < 65536 && 4 <= length
    ensures out == SequenceBytes(literals, distance, length)
  {
    hide Extension, Token;
    out := [Token(|literals|, length - 4)];
    if |literals| >= 15 {
      var ext := EncodeLength(|literals| - 15);
      out := out + ext;
    }
    out := out + literals;
    assert out == [Token(|literals|, length - 4)] + LiteralPart(literals);
    out := out + [distance % 256, distance / 256];
    if length - 4 >= 15 {
      var ext := EncodeLength(length - 4 - 15);
      out := out + ext;
    }
  }

  /** The bytes lz4_compress_block appends after the last match. */
  method EmitFinal(literals: seq<byte>) returns (out: seq<byte>)
    ensures out == FinalBytes(literals)
  {
    out := [Min(|literals|, 15) * 16];
    if |literals| >= 15 {
      var ext := EncodeLength(|literals| - 15);
      out := out + ext;
    }
    out := out + literals;
  }

  /** The match-extension loop of lz4_compress_block: the longest repeat. */
  method ExtendMatch(data: seq<byte>, candidate: nat, i: nat) returns (length: nat)
    requires candidate < i && i + 4 <= |data|
    requires data[candidate..candidate + 4] == data[i..i + 4]
    ensures 4 <= length && i + length <= |data|
    ensures data[candidate..candidate + length] == data[i..i + length]
    ensures i + length < |data| ==> data[candidate + length] != data[i + length]
  {
    length := 4;
    while i + length < |data| && data[candidate + length] == data[i + length]
      invariant 4 <= length && i + length <= |data|
      invariant data[candidate..candidate + length] == data[i..i + length]
    {
      assert data[candidate..candidate + length + 1] == data[candidate..candidate + length]
             + [data[candidate + length]];
      assert data[i..i + length + 1] == data[i..i + length] + [data[i + length]];
      length := length + 1;
    }
  }

  /** The loop that records the positions a match has jumped over. */
  method IndexPositions(data: seq<byte>, known: map<nat, nat>, from: nat, to: int, i: nat)
    returns (table: map<nat, nat>)
    requires Latest(data, known, from) && from <= i <= |data| && to == Min(i, |data| - 3)
    ensures Latest(data, table, i)
  {
    hide Latest, Key;
    table := known;
    var pos := from;
    while pos < to
      invariant from <= pos <= i && (pos <= to || pos == from)
      invariant Latest(data, table, pos)
    {
      LatestNext(data, table, pos);
      table := table[Key(data, pos) := pos];
      pos := pos + 1;
    }
    if pos < i {
      LatestTail(data, table, pos, i);
    }
  }
}
