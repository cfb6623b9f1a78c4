/** Public-key checking of buildroot/packages/configd/ssh_keys.c: the SSH wire
    form inside the canonical Base64. */
module SshKeys {
  import opened Bytes
  import Base64

  const U32_LIMIT := 0x1_0000_0000
  const SSH_KEY_MAX_LEN := 16384
  const SSH_BLOB_MAX_LEN := 12288
  const TYPE_MAX_LEN := 80

  const ALLOWED_TYPES: seq<string> :=
    ["ssh-ed25519", "ssh-rsa", "ecdsa-sha2-nistp256", "ecdsa-sha2-nistp384", "ecdsa-sha2-nistp521",
     "sk-ssh-ed25519@openssh.com", "sk-ecdsa-sha2-nistp256@openssh.com"]

  datatype KeyError =
    | Empty | SeveralLines | TooLong | NoType | TypeNotAllowed | NoData | ControlCharacter
    | NotBase64 | TypeMismatch | Malformed | TrailingFields

  // ------------------------------------------------------------ wire strings

  function Be32(n: nat): (s: seq<byte>)
    requires n < U32_LIMIT
    ensures |s| == 4
  {
    [n / 16777216, n / 65536 % 256, n / 256 % 256, n % 256]
  }

  function FromBe32(a: byte, b: byte, c: byte, d: byte): nat {
    16777216 * a + 65536 * b + 256 * c + d
  }

  lemma Be32Reads(n: nat)
    requires n < U32_LIMIT
    ensures FromBe32(Be32(n)[0], Be32(n)[1], Be32(n)[2], Be32(n)[3]) == n
  {
    assert n / 256 == n / 65536 * 256 + n / 256 % 256;
    assert n / 65536 == n / 16777216 * 256 + n / 65536 % 256;
  }

  lemma FromBe32Writes(a: byte, b: byte, c: byte, d: byte)
    ensures FromBe32(a, b, c, d) < U32_LIMIT && Be32(FromBe32(a, b, c, d)) == [a, b, c, d]
  {
    var n := FromBe32(a, b, c, d);
    Shift(65536 * a + 256 * b + c, d);
    Shift(256 * a + b, c);
    Shift(a, b);
    Halve(n);
  }

  lemma Shift(high: nat, low: byte)
    ensures (256 * high + low) / 256 == high && (256 * high + low) % 256 == low
  {
  }

  lemma Halve(n: nat)
    ensures n / 65536 == n / 256 / 256 && n / 16777216 == n / 256 / 256 / 256
  {
  }

  /** The string type of section 5 of RFC 4251. */
  function WireString(s: seq<byte>): seq<byte>
    requires |s| < U32_LIMIT
  {
    Be32(|s|) + s
  }

  predicate Short(fields: seq<seq<byte>>) {
    forall i :: 0 <= i < |fields| ==> |fields[i]| < U32_LIMIT
  }

  /** Fields one after the other. */
  function Wire(fields: seq<seq<byte>>): seq<byte>
    requires Short(fields)
    decreases |fields|
  {
    if fields == [] then [] else WireString(fields[0]) + Wire(fields[1..])
  }

  /** The string at the front, if it is whole. */
  function Take(s: seq<byte>): (r: Option<(seq<byte>, seq<byte>)>)
    ensures r.Some? ==> |r.value.1| < |s|
  {
    if |s| < 4 then None else
    var n := FromBe32(s[0], s[1], s[2], s[3]);
    if n > |s| - 4 then None else Some((s[4..4 + n], s[4 + n..]))
  }

  /** The fields of a blob that is nothing but whole strings. */
  function Parse(s: seq<byte>): Option<seq<seq<byte>>>
    decreases |s|
  {
    if s == [] then Some([]) else
    var t := Take(s);
    if t.None? then None else
    var rest := Parse(t.value.1);
    if rest.None? then None else Some([t.value.0] + rest.value)
  }

  lemma TakeWire(f: seq<byte>, rest: seq<byte>)
    requires |f| < U32_LIMIT
    ensures Take(WireString(f) + rest) == Some((f, rest))
  {
    var s := WireString(f) + rest;
    Be32Reads(|f|);
    hide Be32, FromBe32;
    assert s[4..4 + |f|] == f && s[4 + |f|..] == rest;
    assert s[0] == Be32(|f|)[0] && s[1] == Be32(|f|)[1] && s[2] == Be32(|f|)[2] && s[3] == Be32(|f|)[3];
  }

  lemma WireTake(s: seq<byte>)
    requires Take(s).Some?
    ensures var (f, rest) := Take(s).value; |f| < U32_LIMIT && s == WireString(f) + rest
  {
    var n := FromBe32(s[0], s[1], s[2], s[3]);
    FromBe32Writes(s[0], s[1], s[2], s[3]);
    hide Be32, FromBe32;
    FourAndRest(s, n);
  }

  lemma FourAndRest(s: seq<byte>, n: nat)
    requires 4 + n <= |s|
    ensures s == [s[0], s[1], s[2], s[3]] + s[4..4 + n] + s[4 + n..]
  {
  }

  lemma {:induction false} ParseWire(fields: seq<seq<byte>>)
    requires Short(fields)
    ensures Parse(Wire(fields)) == Some(fields)
    decreases |fields|
  {
    hide Take, WireString;
    if fields != [] {
      ParseWire(fields[1..]);
      TakeWire(fields[0], Wire(fields[1..]));
      NotEmpty(Wire(fields));
      assert fields == [fields[0]] + fields[1..];
    }
  }

  lemma NotEmpty(s: seq<byte>)
    requires Take(s).Some?
    ensures s != []
  {
  }

  lemma {:induction false} WireParse(s: seq<byte>)
    requires Parse(s).Some?
    ensures Short(Parse(s).value) && Wire(Parse(s).value) == s
    decreases |s|
  {
    hide Take, WireString;
    if s != [] {
      WireTake(s);
      WireParse(Take(s).value.1);
      var fields := Parse(s).value;
      assert fields[1..] == Parse(Take(s).value.1).value;
    }
  }

  // ------------------------------------------------------------- key shapes

  /** Text as bytes; a key type holds nothing above 255. */
  function Ascii(text: string): (s: seq<byte>)
    ensures |s| == |text|
  {
    seq(|text|, i requires 0 <= i < |text| => text[i] as int % 256)
  }

  function PointSize(curve: string): nat {
    if curve == "nistp256" then 65 else if curve == "nistp384" then 97 else if curve == "nistp521" then 133 else 0
  }

  predicate IsEcdsa(outer: string) { "ecdsa-sha2-" <= outer }

  /** An uncompressed point. */
  predicate IsPoint(f: seq<byte>, size: nat) { |f| == size > 0 && f[0] == 4 }

  /** The fields after the type, for each key type. */
  predicate Shape(outer: string, fs: seq<seq<byte>>) {
    if outer == "ssh-ed25519" then |fs| == 1 && |fs[0]| == 32
    else if outer == "ssh-rsa" then |fs| == 2 && |fs[0]| > 0 && |fs[1]| >= 32
    else if IsEcdsa(outer) then |fs| == 2 && fs[0] == Ascii(outer[11..]) && IsPoint(fs[1], PointSize(outer[11..]))
    else if outer == "sk-ssh-ed25519@openssh.com" then |fs| == 2 && |fs[0]| == 32 && |fs[1]| > 0
    else if outer == "sk-ecdsa-sha2-nistp256@openssh.com" then
      |fs| == 3 && fs[0] == Ascii("nistp256") && IsPoint(fs[1], 65) && |fs[2]| > 0
    else false
  }

  /** The blob is the wire form of a key of the outer type. */
  predicate KeyBlob(outer: string, blob: seq<byte>) {
    var fs := Parse(blob);
    fs.Some? && |fs.value| > 0 && fs.value[0] == Ascii(outer) && Shape(outer, fs.value[1..])
  }

  /** A blob is accepted exactly when it is the type and the fields of some key
      of that type, in wire form, and nothing else. */
  lemma KeyBlobIff(outer: string, blob: seq<byte>)
    requires |outer| < U32_LIMIT
    ensures KeyBlob(outer, blob)
       <==> exists fs ::
         Short(fs) && Shape(outer, fs) && Short([Ascii(outer)] + fs) && blob == Wire([Ascii(outer)] + fs)
  {
    hide Parse, Wire, Shape, Ascii, Short;
    if KeyBlob(outer, blob) {
      WireParse(blob);
      var all := Parse(blob).value;
      assert all == [Ascii(outer)] + all[1..];
      ShortTail(all);
    }
    forall fs | Short(fs) && Shape(outer, fs) && Short([Ascii(outer)] + fs) && blob == Wire([Ascii(outer)] + fs)
      ensures KeyBlob(outer, blob)
    {
      ParseWire([Ascii(outer)] + fs);
      assert ([Ascii(outer)] + fs)[1..] == fs;
    }
  }

  lemma ShortTail(fields: seq<seq<byte>>)
    requires Short(fields) && fields != []
    ensures Short(fields[1..])
  {
  }

  // ------------------------------------------------------------- the reader

  /** read_u32 and read_string: cursor and remaining length move together. */
  method ReadString(s: seq<byte>) returns (ok: bool, data: seq<byte>, rest: seq<byte>)
    ensures ok <==> Take(s).Some?
    ensures ok ==> Take(s) == Some((data, rest))
  {
    if |s| < 4 {
      return false, [], s;
    }
    var count := FromBe32(s[0], s[1], s[2], s[3]);
    if count > |s| - 4 {
      return false, [], s;
    }
    return true, s[4..4 + count], s[4 + count..];
  }

  /** The fields read so far and the rest of the blob. */
  ghost predicate Reading(blob: seq<byte>, done: seq<seq<byte>>, rest: seq<byte>) {
    && (Parse(blob).Some? <==> Parse(rest).Some?)
    && (Parse(rest).Some? ==> Parse(blob).value == done + Parse(rest).value)
  }

  lemma ReadNext(blob: seq<byte>, done: seq<seq<byte>>, rest: seq<byte>)
    requires Reading(blob, done, rest)
    ensures Take(rest).None? && Parse(blob).Some? ==> Parse(blob).value == done
    ensures Take(rest).Some? ==> Reading(blob, done + [Take(rest).value.0], Take(rest).value.1)
  {
    hide Take;
    if Take(rest).Some? {
      NotEmpty(rest);
      if Parse(rest).Some? {
        var (f, after) := Take(rest).value;
        assert done + ([f] + Parse(after).value) == done + [f] + Parse(after).value;
      }
    } else if Parse(blob).Some? {
      assert rest == [];
      assert done + [] == done;
    }
  }

  /** A blob that has been read: accepted when nothing is left, and otherwise it
      has more fields than were read. */
  lemma ReadEnd(blob: seq<byte>, done: seq<seq<byte>>, rest: seq<byte>)
    requires Reading(blob, done, rest)
    ensures rest == [] ==> Parse(blob) == Some(done)
    ensures rest != [] && Parse(blob).Some? ==> |Parse(blob).value| > |done| && Parse(blob).value[..|done|] == done
  {
    hide Take;
    if rest == [] {
      assert done + [] == done;
    }
  }

  /** No key of this type starts with these fields. */
  ghost predicate Hopeless(outer: string, fs: seq<seq<byte>>) {
    forall more :: !Shape(outer, fs + more)
  }

  lemma RefuseStart(blob: seq<byte>, outer: string, fs: seq<seq<byte>>, rest: seq<byte>)
    requires Reading(blob, [Ascii(outer)] + fs, rest) && Hopeless(outer, fs)
    ensures !KeyBlob(outer, blob)
  {
    hide Shape, Ascii, Parse;
    if Parse(blob).Some? {
      var more := Parse(rest).value;
      assert Parse(blob).value[1..] == fs + more;
    }
  }

  lemma RefuseCut(blob: seq<byte>, outer: string, fs: seq<seq<byte>>, rest: seq<byte>)
    requires Reading(blob, [Ascii(outer)] + fs, rest) && Take(rest).None? && !Shape(outer, fs)
    ensures !KeyBlob(outer, blob)
  {
    ReadNext(blob, [Ascii(outer)] + fs, rest);
    hide Shape, Ascii, Parse, Take;
    assert ([Ascii(outer)] + fs)[1..] == fs;
  }

  /** One more field of the key. */
  method NextField(ghost blob: seq<byte>, ghost outer: string, ghost fs: seq<seq<byte>>, rest: seq<byte>)
    returns (ok: bool, f: seq<byte>, after: seq<byte>)
    requires Reading(blob, [Ascii(outer)] + fs, rest)
    ensures ok ==> Reading(blob, [Ascii(outer)] + (fs + [f]), after)
    ensures !ok && !Shape(outer, fs) ==> !KeyBlob(outer, blob)
  {
    hide Reading, Shape, Ascii, KeyBlob, Take;
    ReadNext(blob, [Ascii(outer)] + fs, rest);
    ok, f, after := ReadString(rest);
    assert [Ascii(outer)] + fs + [f] == [Ascii(outer)] + (fs + [f]);
    if !ok && !Shape(outer, fs) {
      RefuseCut(blob, outer, fs, rest);
    }
  }

  lemma HopelessEd(f: seq<byte>)
    ensures !Shape("ssh-ed25519", [])
    ensures |f| != 32 ==> Hopeless("ssh-ed25519", [f])
    ensures |f| == 32 ==> Shape("ssh-ed25519", [f])
  {
    forall more ensures ([f] + more)[0] == f {
    }
  }

  method CheckEd(ghost blob: seq<byte>, rest: seq<byte>) returns (ok: bool, ghost fs: seq<seq<byte>>, after: seq<byte>)
    requires Reading(blob, [Ascii("ssh-ed25519")] + [], rest)
    ensures ok ==> Shape("ssh-ed25519", fs) && Reading(blob, [Ascii("ssh-ed25519")] + fs, after)
    ensures !ok ==> !KeyBlob("ssh-ed25519", blob)
  {
    hide Reading, Shape, Ascii, KeyBlob, Hopeless;
    var f;
    ok, f, after := NextField(blob, "ssh-ed25519", [], rest);
    HopelessEd(f);
    fs := [f];
    assert [] + [f] == fs;
    if ok && |f| != 32 {
      RefuseStart(blob, "ssh-ed25519", fs, after);
      ok := false;
    }
  }

  lemma TwoFields(f: seq<byte>, g: seq<byte>, more: seq<seq<byte>>)
    ensures ([f] + more)[0] == f && ([f, g] + more)[0] == f && ([f, g] + more)[1] == g
    ensures [] + [f] == [f] && [f] + [g] == [f, g]
  {
  }

  lemma HopelessRsa(f: seq<byte>, g: seq<byte>)
    ensures !Shape("ssh-rsa", []) && !Shape("ssh-rsa", [f])
    ensures |f| == 0 ==> Hopeless("ssh-rsa", [f])
    ensures |g| < 32 ==> Hopeless("ssh-rsa", [f, g])
    ensures |f| > 0 && |g| >= 32 ==> Shape("ssh-rsa", [f, g])
  {
    forall more ensures ([f] + more)[0] == f && ([f, g] + more)[1] == g {
    }
  }

  method CheckRsa(ghost blob: seq<byte>, rest: seq<byte>) returns (ok: bool, ghost fs: seq<seq<byte>>, after: seq<byte>)
    requires Reading(blob, [Ascii("ssh-rsa")] + [], rest)
    ensures ok ==> Shape("ssh-rsa", fs) && Reading(blob, [Ascii("ssh-rsa")] + fs, after)
    ensures !ok ==> !KeyBlob("ssh-rsa", blob)
  {
    hide Reading, Shape, Ascii, KeyBlob, Hopeless;
    var e, modulus;
    fs := [];
    ok, e, after := NextField(blob, "ssh-rsa", [], rest);
    HopelessRsa(e, []);
    TwoFields(e, [], []);
    if !ok {
      return;
    }
    if |e| == 0 {
      RefuseStart(blob, "ssh-rsa", [e], after);
      return false, fs, after;
    }
    ok, modulus, after := NextField(blob, "ssh-rsa", [e], after);
    HopelessRsa(e, modulus);
    TwoFields(e, modulus, []);
    fs := [e, modulus];
    if ok && |modulus| < 32 {
      RefuseStart(blob, "ssh-rsa", fs, after);
      ok := false;
    }
  }

  lemma HopelessEcdsa(outer: string, f: seq<byte>, g: seq<byte>)
    requires IsEcdsa(outer) && outer != "ssh-ed25519" && outer != "ssh-rsa"
    ensures !Shape(outer, []) && !Shape(outer, [f])
    ensures PointSize(outer[11..]) == 0 ==> Hopeless(outer, [])
    ensures f != Ascii(outer[11..]) ==> Hopeless(outer, [f])
    ensures !IsPoint(g, PointSize(outer[11..])) ==> Hopeless(outer, [f, g])
    ensures f == Ascii(outer[11..]) && IsPoint(g, PointSize(outer[11..])) ==> Shape(outer, [f, g])
  {
    hide PointSize, Ascii;
    forall more ensures ([f] + more)[0] == f && ([f, g] + more)[1] == g {
    }
  }

  method CheckEcdsa(outer: string, ghost blob: seq<byte>, rest: seq<byte>)
    returns (ok: bool, ghost fs: seq<seq<byte>>, after: seq<byte>)
    requires IsEcdsa(outer) && outer != "ssh-ed25519" && outer != "ssh-rsa"
    requires Reading(blob, [Ascii(outer)] + [], rest)
    ensures ok ==> Shape(outer, fs) && Reading(blob, [Ascii(outer)] + fs, after)
    ensures !ok ==> !KeyBlob(outer, blob)
  {
    var curveName := outer[11..];
    hide Reading, Shape, Ascii, KeyBlob, Hopeless, PointSize, IsEcdsa;
    var expected := PointSize(curveName);
    var curve, point;
    fs := [];
    after := rest;
    HopelessEcdsa(outer, [], []);
    if expected == 0 {
      RefuseStart(blob, outer, [], rest);
      return false, fs, after;
    }
    ok, curve, after := NextField(blob, outer, [], rest);
    HopelessEcdsa(outer, curve, []);
    TwoFields(curve, [], []);
    if !ok {
      return;
    }
    if curve != Ascii(curveName) {
      RefuseStart(blob, outer, [curve], after);
      return false, fs, after;
    }
    ok, point, after := NextField(blob, outer, [curve], after);
    HopelessEcdsa(outer, curve, point);
    TwoFields(curve, point, []);
    fs := [curve, point];
    if ok && (|point| != expected || point[0] != 4) {
      RefuseStart(blob, outer, fs, after);
      ok := false;
    }
  }

  const SK_ED := "sk-ssh-ed25519@openssh.com"
  const SK_ECDSA := "sk-ecdsa-sha2-nistp256@openssh.com"

  lemma HopelessSkEd(f: seq<byte>, g: seq<byte>)
    ensures !Shape(SK_ED, []) && !Shape(SK_ED, [f])
    ensures |f| != 32 ==> Hopeless(SK_ED, [f])
    ensures |g| == 0 ==> Hopeless(SK_ED, [f, g])
    ensures |f| == 32 && |g| > 0 ==> Shape(SK_ED, [f, g])
  {
    NoEcdsa(SK_ED);
    hide IsEcdsa;
    forall more ensures ([f] + more)[0] == f && ([f, g] + more)[1] == g {
    }
  }

  lemma NoEcdsa(outer: string)
    requires |outer| > 0 && outer[0] == 's'
    ensures !IsEcdsa(outer)
  {
    assert "ecdsa-sha2-"[0] == 'e';
  }

  method CheckSkEd(ghost blob: seq<byte>, rest: seq<byte>)
    returns (ok: bool, ghost fs: seq<seq<byte>>, after: seq<byte>)
    requires Reading(blob, [Ascii(SK_ED)] + [], rest)
    ensures ok ==> Shape(SK_ED, fs) && Reading(blob, [Ascii(SK_ED)] + fs, after)
    ensures !ok ==> !KeyBlob(SK_ED, blob)
  {
    hide Reading, Shape, Ascii, KeyBlob, Hopeless;
    var f, application;
    fs := [];
    ok, f, after := NextField(blob, SK_ED, [], rest);
    HopelessSkEd(f, []);
    TwoFields(f, [], []);
    if !ok {
      return;
    }
    if |f| != 32 {
      RefuseStart(blob, SK_ED, [f], after);
      return false, fs, after;
    }
    ok, application, after := NextField(blob, SK_ED, [f], after);
    HopelessSkEd(f, application);
    TwoFields(f, application, []);
    fs := [f, application];
    if ok && |application| == 0 {
      RefuseStart(blob, SK_ED, fs, after);
      ok := false;
    }
  }

  lemma HopelessSkEcdsa(f: seq<byte>, g: seq<byte>, h: seq<byte>)
    ensures !Shape(SK_ECDSA, []) && !Shape(SK_ECDSA, [f]) && !Shape(SK_ECDSA, [f, g])
    ensures f != Ascii("nistp256") ==> Hopeless(SK_ECDSA, [f])
    ensures !IsPoint(g, 65) ==> Hopeless(SK_ECDSA, [f, g])
    ensures |h| == 0 ==> Hopeless(SK_ECDSA, [f, g, h])
    ensures f == Ascii("nistp256") && IsPoint(g, 65) && |h| > 0 ==> Shape(SK_ECDSA, [f, g, h])
  {
    NoEcdsa(SK_ECDSA);
    hide IsEcdsa, Ascii;
    forall more ensures ([f] + more)[0] == f && ([f, g] + more)[1] == g && ([f, g, h] + more)[2] == h {
    }
  }

  method CheckSkEcdsa(ghost blob: seq<byte>, rest: seq<byte>)
    returns (ok: bool, ghost fs: seq<seq<byte>>, after: seq<byte>)
    requires Reading(blob, [Ascii(SK_ECDSA)] + [], rest)
    ensures ok ==> Shape(SK_ECDSA, fs) && Reading(blob, [Ascii(SK_ECDSA)] + fs, after)
    ensures !ok ==> !KeyBlob(SK_ECDSA, blob)
  {
    hide Reading, Shape, Ascii, KeyBlob, Hopeless;
    var curve, point, application;
    fs := [];
    ok, curve, after := NextField(blob, SK_ECDSA, [], rest);
    HopelessSkEcdsa(curve, [], []);
    TwoFields(curve, [], []);
    if !ok {
      return;
    }
    if curve != Ascii("nistp256") {
      RefuseStart(blob, SK_ECDSA, [curve], after);
      return false, fs, after;
    }
    ok, point, after := NextField(blob, SK_ECDSA, [curve], after);
    HopelessSkEcdsa(curve, point, []);
    TwoFields(curve, point, []);
    if !ok {
      return;
    }
    if |point| != 65 || point[0] != 4 {
      RefuseStart(blob, SK_ECDSA, [curve, point], after);
      return false, fs, after;
    }
    ok, application, after := NextField(blob, SK_ECDSA, [curve, point], after);
    HopelessSkEcdsa(curve, point, application);
    assert [curve, point] + [application] == [curve, point, application];
    fs := [curve, point, application];
    if ok && |application| == 0 {
      RefuseStart(blob, SK_ECDSA, fs, after);
      ok := false;
    }
  }

  /** The fields of the key after its type. */
  method CheckFields(outer: string, ghost blob: seq<byte>, rest: seq<byte>)
    returns (ok: bool, ghost fs: seq<seq<byte>>, after: seq<byte>)
    requires Reading(blob, [Ascii(outer)] + [], rest)
    ensures ok ==> Shape(outer, fs) && Reading(blob, [Ascii(outer)] + fs, after)
    ensures !ok ==> !KeyBlob(outer, blob)
  {
    hide Reading, Shape, Ascii, KeyBlob;
    if outer == "ssh-ed25519" {
      ok, fs, after := CheckEd(blob, rest);
    } else if outer == "ssh-rsa" {
      ok, fs, after := CheckRsa(blob, rest);
    } else if IsEcdsa(outer) {
      ok, fs, after := CheckEcdsa(outer, blob, rest);
    } else if outer == SK_ED {
      ok, fs, after := CheckSkEd(blob, rest);
    } else if outer == SK_ECDSA {
      ok, fs, after := CheckSkEcdsa(blob, rest);
    } else {
      UnknownType(outer, blob);
      return false, [], rest;
    }
  }

  lemma UnknownType(outer: string, blob: seq<byte>)
    requires outer != "ssh-ed25519" && outer != "ssh-rsa" && !IsEcdsa(outer) && outer != SK_ED && outer != SK_ECDSA
    ensures !KeyBlob(outer, blob)
  {
  }

  /** A key type has one number of fields. */
  lemma ShapeSize(outer: string, fs: seq<seq<byte>>, gs: seq<seq<byte>>)
    requires Shape(outer, fs) && Shape(outer, gs)
    ensures |fs| == |gs|
  {
    hide Ascii;
  }

  lemma NothingAfter(blob: seq<byte>, outer: string, fs: seq<seq<byte>>, rest: seq<byte>)
    requires Reading(blob, [Ascii(outer)] + fs, rest) && Shape(outer, fs)
    ensures rest == [] <==> KeyBlob(outer, blob)
  {
    ReadEnd(blob, [Ascii(outer)] + fs, rest);
    hide Shape, Ascii, Parse, Reading;
    assert ([Ascii(outer)] + fs)[1..] == fs;
    if rest != [] && KeyBlob(outer, blob) {
      ShapeSize(outer, fs, Parse(blob).value[1..]);
    }
  }

  /** validate_ssh_blob. */
  method ValidateBlob(outer: string, blob: seq<byte>) returns (e: Option<KeyError>)
    ensures e.None? <==> KeyBlob(outer, blob)
  {
    hide Reading, Shape, Ascii, KeyBlob, Take;
    NothingRead(blob);
    ReadNext(blob, [], blob);
    var ok, field, rest := ReadString(blob);
    if !ok || field != Ascii(outer) {
      WrongType(outer, blob);
      return Some(TypeMismatch);
    }
    assert [] + [field] == [Ascii(outer)] + [];
    ghost var fs;
    ok, fs, rest := CheckFields(outer, blob, rest);
    if !ok {
      return Some(Malformed);
    }
    NothingAfter(blob, outer, fs, rest);
    if rest != [] {
      return Some(TrailingFields);
    }
    return None;
  }

  lemma NothingRead(blob: seq<byte>)
    ensures Reading(blob, [], blob)
  {
    hide Parse;
    if Parse(blob).Some? {
      assert [] + Parse(blob).value == Parse(blob).value;
    }
  }

  lemma WrongType(outer: string, blob: seq<byte>)
    requires Take(blob).None? || Take(blob).value.0 != Ascii(outer)
    ensures !KeyBlob(outer, blob)
  {
    hide Take, Shape, Ascii;
  }

  // ---------------------------------------------------------------- the line

  predicate Blank(c: char) { c == ' ' || c == '\t' }

  predicate Control(c: char) { c < ' ' || c == 127 as char }

  /** The first position from i on whose character is not blank, or is. */
  function Scan(line: string, i: nat, blank: bool): (j: nat)
    requires i <= |line|
    ensures i <= j <= |line|
    ensures forall k :: i <= k < j ==> Blank(line[k]) == blank
    ensures j < |line| ==> Blank(line[j]) != blank
    decreases |line| - i
  {
    if i == |line| || Blank(line[i]) != blank then i else Scan(line, i + 1, blank)
  }

  lemma ScanIs(line: string, i: nat, j: nat, blank: bool)
    requires i <= j <= |line| && (forall k :: i <= k < j ==> Blank(line[k]) == blank)
    requires j < |line| ==> Blank(line[j]) != blank
    ensures Scan(line, i, blank) == j
  {
  }

  /** The next word from i on: its start and its end. */
  function Word(line: string, i: nat): (w: (nat, nat))
    requires i <= |line|
    ensures i <= w.0 <= w.1 <= |line|
  {
    var start := Scan(line, i, true);
    (start, Scan(line, start, false))
  }

  /** A one-line key: an allowed type, the canonical Base64 of a key of that type
      and a comment without control characters. */
  ghost predicate GoodLine(line: string) {
    && line != "" && '\r' !in line && '\n' !in line && |line| <= SSH_KEY_MAX_LEN
    && var (a, b) := Word(line, 0);
       var (c, d) := Word(line, b);
       && a < b < a + TYPE_MAX_LEN && line[a..b] in ALLOWED_TYPES
       && c < d < c + SSH_KEY_MAX_LEN
       && (forall k :: d <= k < |line| ==> !Control(line[k]))
       && exists blob :: Base64.Accepts(line[c..d], blob, SSH_BLOB_MAX_LEN) && KeyBlob(line[a..b], blob)
  }

  /** The loops of token. */
  method ScanLine(line: string, i: nat, blank: bool) returns (j: nat)
    requires i <= |line|
    ensures j == Scan(line, i, blank)
  {
    hide Blank;
    j := i;
    while j < |line| && Blank(line[j]) == blank
      invariant i <= j <= |line| && forall k :: i <= k < j ==> Blank(line[k]) == blank
    {
      j := j + 1;
    }
    ScanIs(line, i, j, blank);
  }

  /** token: the next word, if it is there and fits. */
  method Token(line: string, i: nat, limit: nat) returns (ok: bool, word: string, next: nat)
    requires i <= |line|
    ensures var (start, end) := Word(line, i);
            next == end && (ok <==> start < end < start + limit) && (ok ==> word == line[start..end])
  {
    hide Scan;
    var start := ScanLine(line, i, true);
    next := ScanLine(line, start, false);
    ok := start < next && next - start < limit;
    word := if ok then line[start..next] else "";
  }

  /** The comment is free of control characters. */
  method CommentOk(line: string, from: nat) returns (ok: bool)
    requires from <= |line|
    ensures ok <==> forall k :: from <= k < |line| ==> !Control(line[k])
  {
    hide Control;
    var i := from;
    while i < |line|
      invariant from <= i <= |line| && forall k :: from <= k < i ==> !Control(line[k])
    {
      if Control(line[i]) {
        return false;
      }
      i := i + 1;
    }
    ok := true;
  }

  /** Canonical text has one decoding. */
  lemma OneBlob(text: string, a: seq<byte>, b: seq<byte>, capacity: nat)
    requires Base64.Accepts(text, a, capacity) && Base64.Accepts(text, b, capacity)
    ensures a == b
  {
    Base64.CanonicalUnique(text, a, b);
  }

  /** ssh_key_validate: it accepts exactly the good lines. */
  method Validate(line: string) returns (e: Option<KeyError>)
    ensures e.None? <==> GoodLine(line)
  {
    hide KeyBlob, Word, Base64.Accepts, Control;
    if line == "" {
      return Some(Empty);
    }
    if '\r' in line || '\n' in line {
      return Some(SeveralLines);
    }
    if |line| > SSH_KEY_MAX_LEN {
      return Some(TooLong);
    }
    var ok, outer, next := Token(line, 0, TYPE_MAX_LEN);
    if !ok {
      return Some(NoType);
    }
    if outer !in ALLOWED_TYPES {
      return Some(TypeNotAllowed);
    }
    var encoded;
    ok, encoded, next := Token(line, next, SSH_KEY_MAX_LEN);
    if !ok {
      return Some(NoData);
    }
    ok := CommentOk(line, next);
    if !ok {
      return Some(ControlCharacter);
    }
    e := ValidateData(outer, encoded);
  }

  method ValidateData(outer: string, encoded: string) returns (e: Option<KeyError>)
    ensures e.None? <==> exists blob :: Base64.Accepts(encoded, blob, SSH_BLOB_MAX_LEN) && KeyBlob(outer, blob)
  {
    var decoded := Base64.DecodeSsh(encoded, SSH_BLOB_MAX_LEN);
    if decoded.Err? {
      assert Base64.NoneAccepted(encoded, SSH_BLOB_MAX_LEN);
      return Some(NotBase64);
    }
    hide KeyBlob, Base64.Accepts;
    e := ValidateBlob(outer, decoded.value);
    if e.Some? {
      forall blob | Base64.Accepts(encoded, blob, SSH_BLOB_MAX_LEN) ensures !KeyBlob(outer, blob) {
        OneBlob(encoded, blob, decoded.value, SSH_BLOB_MAX_LEN);
      }
    }
  }
}
