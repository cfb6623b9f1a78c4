/** Dotted configuration paths of buildroot/packages/configd/console_cli.c:
    reading one, building the delta that sets one, and the laws between them. */
module ConsolePath {
  import opened Bytes
  import opened Json

  const PATH_LIMIT := 256

  // ------------------------------------------------------------------- paths

  predicate HasDoubleDot(path: string) {
    exists i :: 0 <= i < |path| - 1 && path[i] == '.' && path[i + 1] == '.'
  }

  /** The check both functions make on a path. */
  predicate ValidPath(path: string) {
    0 < |path| < PATH_LIMIT && path[0] != '.' && path[|path| - 1] != '.' && !HasDoubleDot(path)
  }

  /** Where the component that starts at `i` ends. */
  function PartEnd(path: string, i: nat): (e: nat)
    requires i <= |path|
    ensures i <= e <= |path|
    ensures forall k :: i <= k < e ==> path[k] != '.'
    ensures e < |path| ==> path[e] == '.'
    decreases |path| - i
  {
    if i < |path| && path[i] != '.' then PartEnd(path, i + 1) else i
  }

  /** The components of a path from position `i` on. */
  function PartsFrom(path: string, i: nat): (parts: seq<string>)
    requires i <= |path|
    ensures 0 < |parts|
    decreases |path| - i
  {
    var e := PartEnd(path, i);
    [path[i..e]] + (if e < |path| then PartsFrom(path, e + 1) else [])
  }

  function Parts(path: string): (parts: seq<string>)
    ensures 0 < |parts|
  {
    PartsFrom(path, 0)
  }

  /** A valid path has no empty component, so splitting it at the dots is what
      strtok_r does. */
  lemma {:induction false} PartsNonempty(path: string, i: nat)
    requires ValidPath(path) && i < |path| && path[i] != '.'
    ensures forall k :: 0 <= k < |PartsFrom(path, i)| ==> PartsFrom(path, i)[k] != ""
    decreases |path| - i
  {
    var e := PartEnd(path, i);
    if e < |path| {
      assert path[e] == '.' && e < |path| - 1;
      assert path[e + 1] != '.';
      PartsNonempty(path, e + 1);
    }
  }

  // ----------------------------------------------------------------- reading

  /** A JSON null reads as nothing, as json-c gives a null pointer for it. */
  function Present(j: Json): Option<Json> {
    if j.Null? then None else Some(j)
  }

  function Walk(current: Json, parts: seq<string>): Option<Json>
    decreases |parts|
  {
    if parts == [] then Present(current)
    else if current.Obj? && parts[0] in current.members then Walk(current.members[parts[0]], parts[1..])
    else None
  }

  function PathGet(root: Json, path: string): Option<Json> {
    if ValidPath(path) then Walk(root, Parts(path)) else None
  }

  /** console_path_get. */
  method ConsolePathGet(root: Json, path: string) returns (r: Option<Json>)
    ensures r == PathGet(root, path)
  {
    if !ValidPath(path) {
      return None;
    }
    var current := root;
    var i: nat := 0;
    while true
      invariant i <= |path| && Walk(current, PartsFrom(path, i)) == PathGet(root, path)
      decreases |path| - i
    {
      var e := NextPart(path, i);
      var part := path[i..e];
      if !current.Obj? || part !in current.members {
        return None;
      }
      assert PartsFrom(path, i)[1..] == if e < |path| then PartsFrom(path, e + 1) else [];
      current := current.members[part];
      if e == |path| {
        return Present(current);
      }
      i := e + 1;
    }
  }

  method NextPart(path: string, i: nat) returns (e: nat)
    requires i <= |path|
    ensures e == PartEnd(path, i)
  {
    e := i;
    while e < |path| && path[e] != '.'
      invariant i <= e <= |path| && PartEnd(path, e) == PartEnd(path, i)
    {
      e := e + 1;
    }
  }

  // ----------------------------------------------------------------- setting

  /** The nested object with the value at the end of the path. */
  function Delta(parts: seq<string>, value: Json): (d: Json)
    requires 0 < |parts|
    ensures d.Obj?
  {
    if |parts| == 1 then Obj(map[parts[0] := value]) else Obj(map[parts[0] := Delta(parts[1..], value)])
  }

  /** delta_with_value on a value that could be allocated. */
  method DeltaWithValue(path: string, value: Json) returns (r: Option<Json>)
    ensures r == if ValidPath(path) then Some(Delta(Parts(path), value)) else None
  {
    if !ValidPath(path) {
      return None;
    }
    var parts := Parts(path);
    var k := |parts| - 1;
    var current := Obj(map[parts[k] := value]);
    assert parts[k..] == [parts[k]];
    while k > 0
      invariant 0 <= k < |parts| && current == Delta(parts[k..], value)
    {
      k := k - 1;
      assert parts[k..][1..] == parts[k + 1..];
      current := Obj(map[parts[k] := current]);
    }
    assert parts[0..] == parts;
    r := Some(current);
  }

  /** parse_value: `parsed` is what the JSON parser makes of the text, if it
      succeeds.  The parser hands back a null pointer for a JSON null, so the
      result is never null. */
  function ParseValue(text: string, parsed: Option<Json>): (v: Json)
    ensures !v.Null?
  {
    if text == "" then Str("")
    else match parsed
         case Some(j) => if j.Null? then Str(text) else j
         case None => Str(text)
  }

  // -------------------------------------------------------------------- laws

  predicate Prefix(p: seq<string>, q: seq<string>) { p <= q || q <= p }

  /** What the path reads after the value was merged in at it. */
  function Landed(before: Option<Json>, value: Json): Json {
    if before.Some? && before.value.Obj? && value.Obj? then Merge(before.value, value) else value
  }

  lemma {:induction false} WalkMerged(base: Json, parts: seq<string>, value: Json)
    requires base.Obj? && 0 < |parts| && !value.Null?
    ensures Walk(Merge(base, Delta(parts, value)), parts) == Some(Landed(Walk(base, parts), value))
    decreases |parts|
  {
    var k := parts[0];
    var d := Delta(parts, value);
    MergeAt(base, d, k);
    if |parts| == 1 {
      assert parts[1..] == [];
    } else if k in base.members && base.members[k].Obj? {
      WalkMerged(base.members[k], parts[1..], value);
    } else {
      WalkFresh(parts[1..], value);
    }
  }

  lemma {:induction false} WalkFresh(parts: seq<string>, value: Json)
    requires 0 < |parts| && !value.Null?
    ensures Walk(Delta(parts, value), parts) == Some(value)
    decreases |parts|
  {
    if |parts| == 1 {
      assert parts[1..] == [];
    } else {
      WalkFresh(parts[1..], value);
    }
  }

  lemma {:induction false} WalkElsewhere(base: Json, parts: seq<string>, value: Json, other: seq<string>)
    requires base.Obj? && 0 < |parts| && 0 < |other| && !value.Null? && !Prefix(parts, other)
    ensures Walk(Merge(base, Delta(parts, value)), other) == Walk(base, other)
    decreases |parts|
  {
    var k, d := parts[0], Delta(parts, value);
    MergeAt(base, d, other[0]);
    if other[0] == k {
      assert parts == [k] + parts[1..] && other == [k] + other[1..];
      assert 0 < |parts[1..]| && 0 < |other[1..]| && !Prefix(parts[1..], other[1..]);
      if k in base.members && base.members[k].Obj? {
        WalkElsewhere(base.members[k], parts[1..], value, other[1..]);
      } else {
        WalkFreshElsewhere(parts[1..], value, other[1..]);
      }
    }
  }

  lemma {:induction false} WalkFreshElsewhere(parts: seq<string>, value: Json, other: seq<string>)
    requires 0 < |parts| && 0 < |other| && !Prefix(parts, other)
    ensures Walk(Delta(parts, value), other) == None
    decreases |parts|
  {
    if other[0] == parts[0] {
      assert parts == [parts[0]] + parts[1..] && other == [parts[0]] + other[1..];
      assert 0 < |parts[1..]| && 0 < |other[1..]| && !Prefix(parts[1..], other[1..]);
      WalkFreshElsewhere(parts[1..], value, other[1..]);
    }
  }

  /** Wrapping a value in objects adds no null and hides none. */
  lemma {:induction false} DeltaNulls(parts: seq<string>, value: Json)
    requires 0 < |parts| && !value.Null?
    ensures NullInside(Delta(parts, value)) <==> NullInside(value)
    decreases |parts|
  {
    var d := Delta(parts, value);
    assert parts[0] in d.members;
    if |parts| > 1 {
      DeltaNulls(parts[1..], value);
    }
  }

  lemma DeltaNested(parts: seq<string>, value: Json)
    requires 0 < |parts| && !value.Null?
    ensures NestedNull(Delta(parts, value)) <==> NullInside(value)
  {
    var d := Delta(parts, value);
    assert parts[0] in d.members;
    if |parts| > 1 {
      DeltaNulls(parts[1..], value);
    }
  }

  function Set(root: Json, path: string, value: Json): Json
    requires ValidPath(path)
  {
    Merge(root, Delta(Parts(path), value))
  }

  /** Setting a path to what a text parses to, and reading it back: a value
      that is not an object is returned as it was set, an object as merged into
      the object that was there. */
  lemma SetThenGet(root: Json, path: string, text: string, parsed: Option<Json>)
    requires root.Obj? && ValidPath(path)
    ensures var value := ParseValue(text, parsed);
            && PathGet(Set(root, path, value), path) == Some(Landed(PathGet(root, path), value))
            && (!value.Obj? ==> PathGet(Set(root, path, value), path) == Some(value))
  {
    WalkMerged(root, Parts(path), ParseValue(text, parsed));
  }

  /** Every path that is neither a prefix nor an extension reads as before. */
  lemma SetFrame(root: Json, path: string, value: Json, other: string)
    requires root.Obj? && ValidPath(path) && !value.Null? && !Prefix(Parts(path), Parts(other))
    ensures PathGet(Set(root, path, value), other) == PathGet(root, other)
  {
    if ValidPath(other) {
      WalkElsewhere(root, Parts(path), value, Parts(other));
    }
  }

  /** Setting twice is setting once, whatever was there, exactly for the values
      without a null inside. */
  lemma SetTwice(path: string, value: Json)
    requires ValidPath(path) && !value.Null?
    ensures (forall root: Json :: root.Obj? ==> Set(Set(root, path, value), path, value) == Set(root, path, value))
       <==> !NullInside(value)
  {
    hide Merge, Delta, NestedNull, NullInside, Parts;
    var d := Delta(Parts(path), value);
    DeltaNested(Parts(path), value);
    IdempotentIff(d);
    forall root: Json
      ensures Set(root, path, value) == Merge(root, d)
      ensures root.Obj? ==> Set(Set(root, path, value), path, value) == Merge(Merge(root, d), d)
    {
    }
  }
}
