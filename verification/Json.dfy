/** Configurations as JSON values, and json_deep_merge of
    buildroot/packages/configd/json_util.c. */
module Json {
  datatype Json =
    | Null
    | Bool(b: bool)
    | Int(i: int)
    | Str(s: string)
    | Arr(items: seq<Json>)
    | Obj(members: map<string, Json>)

  /** The merge of a patch into a base; anything but two objects leaves the base
      alone.  A null member deletes, two objects merge, anything else replaces. */
  function Merge(base: Json, patch: Json): (r: Json)
    ensures base.Obj? ==> r.Obj?
    decreases patch
  {
    if !base.Obj? || !patch.Obj? then base
    else Obj(map k | k in base.members.Keys + patch.members.Keys && !(k in patch.members && patch.members[k].Null?) ::
               MergeMember(base, patch, k))
  }

  function MergeMember(base: Json, patch: Json, k: string): Json
    requires base.Obj? && patch.Obj?
    requires k in base.members.Keys + patch.members.Keys
    decreases patch, 0
  {
    if k !in patch.members then base.members[k]
    else if k in base.members && base.members[k].Obj? && patch.members[k].Obj?
    then Merge(base.members[k], patch.members[k])
    else patch.members[k]
  }

  /** What a key of the merged object holds. */
  lemma MergeAt(base: Json, patch: Json, k: string)
    requires base.Obj? && patch.Obj?
    ensures var m := Merge(base, patch).members;
            && (k in m <==> (k in base.members || k in patch.members)
                            && !(k in patch.members && patch.members[k].Null?))
            && (k in m ==> m[k] == MergeMember(base, patch, k))
  {
  }

  /** json_deep_merge: the patch's keys in any order, each deleted, merged or
      replaced in the base. */
  method DeepMerge(base: Json, patch: Json) returns (merged: Json)
    ensures merged == Merge(base, patch)
    decreases patch
  {
    if !base.Obj? || !patch.Obj? {
      return base;
    }
    var members := base.members;
    var left := patch.members.Keys;
    while left != {}
      invariant left <= patch.members.Keys
      invariant forall k :: k in members ==> k in base.members || k in patch.members
      invariant forall k :: k !in patch.members || k in left ==>
                  (k in members <==> k in base.members) && (k in members ==> members[k] == base.members[k])
      invariant forall k :: k in patch.members && k !in left ==>
                  (k in members <==> !patch.members[k].Null?)
                  && (k in members ==> members[k] == MergeMember(base, patch, k))
      decreases left
    {
      var key :| key in left;
      left := left - {key};
      var value := patch.members[key];
      if value.Null? {
        members := members - {key};
      } else if key in members && members[key].Obj? && value.Obj? {
        var inner := DeepMerge(members[key], value);
        members := members[key := inner];
      } else {
        members := members[key := value];
      }
    }
    merged := Obj(members);
    assert merged.members == Merge(base, patch).members;
  }

  // -------------------------------------------------- against RFC 7396, section 2

  /** The merge of section 2 of RFC 7396. */
  function MergePatch(target: Json, patch: Json): Json
    decreases patch
  {
    if !patch.Obj? then patch
    else
      var t: map<string, Json> := if target.Obj? then target.members else map[];
      Obj(map k | k in t.Keys + patch.members.Keys && !(k in patch.members && patch.members[k].Null?) ::
            if k !in patch.members then t[k]
            else MergePatch(if k in t then t[k] else Null, patch.members[k]))
  }

  /** Some object inside has a null member. */
  ghost predicate NullInside(j: Json)
    decreases j
  {
    j.Obj? && exists k :: k in j.members && (j.members[k].Null? || NullInside(j.members[k]))
  }

  /** A null below the top level of the patch. */
  ghost predicate NestedNull(patch: Json) {
    patch.Obj? && exists k :: k in patch.members && NullInside(patch.members[k])
  }

  /** Without nulls inside, a patch is its own value. */
  lemma {:induction false} MergePatchFresh(t: Json, patch: Json)
    requires !NullInside(patch) && (patch.Obj? ==> !t.Obj?)
    ensures MergePatch(t, patch) == patch
    decreases patch
  {
    if patch.Obj? {
      forall k | k in patch.members ensures MergePatch(Null, patch.members[k]) == patch.members[k] {
        MergePatchFresh(Null, patch.members[k]);
      }
      assert MergePatch(t, patch).members == patch.members;
    }
  }

  /** Merging a patch without nested nulls is the standard's merge. */
  lemma {:induction false} MergeIsStandard(base: Json, patch: Json)
    requires base.Obj? && patch.Obj? && !NestedNull(patch)
    ensures Merge(base, patch) == MergePatch(base, patch)
    decreases patch
  {
    forall k | k in patch.members && !patch.members[k].Null?
      ensures MergeMember(base, patch, k) == MergePatch(if k in base.members then base.members[k]
                                                        else Null, patch.members[k])
    {
      MemberIsStandard(base, patch, k);
    }
    assert Merge(base, patch).members == MergePatch(base, patch).members;
  }

  lemma {:induction false} MemberIsStandard(base: Json, patch: Json, k: string)
    requires base.Obj? && patch.Obj? && !NestedNull(patch) && k in patch.members
    ensures MergeMember(base, patch, k) == MergePatch(if k in base.members then base.members[k]
                                                      else Null, patch.members[k])
    decreases patch, 0
  {
    var value := patch.members[k];
    assert !NullInside(value);
    if k in base.members && base.members[k].Obj? && value.Obj? {
      assert !NestedNull(value);
      MergeIsStandard(base.members[k], value);
    } else {
      MergePatchFresh(if k in base.members then base.members[k] else Null, value);
    }
  }

  lemma {:induction false} NullsVanish(t: Json, patch: Json)
    requires !NullInside(t)
    ensures !NullInside(MergePatch(t, patch))
    decreases patch
  {
    if patch.Obj? {
      var r := MergePatch(t, patch);
      forall k | k in r.members ensures !r.members[k].Null? && !NullInside(r.members[k]) {
        if k in patch.members {
          NullsVanish(if t.Obj? && k in t.members then t.members[k] else Null, patch.members[k]);
        }
      }
    }
  }

  /** The two merges agree on every base exactly when the patch has no nested
      null; the empty object tells them apart otherwise. */
  lemma StandardIff(patch: Json)
    requires patch.Obj?
    ensures (forall base: Json :: base.Obj? ==> Merge(base, patch) == MergePatch(base, patch)) <==> !NestedNull(patch)
  {
    hide Merge, MergePatch, NestedNull;
    if NestedNull(patch) {
      EmptyTellsApart(patch);
      assert Obj(map[]).Obj?;
    } else {
      forall base: Json | base.Obj? ensures Merge(base, patch) == MergePatch(base, patch) {
        MergeIsStandard(base, patch);
      }
    }
  }

  lemma EmptyTellsApart(patch: Json)
    requires NestedNull(patch)
    ensures Merge(Obj(map[]), patch) != MergePatch(Obj(map[]), patch)
  {
    var empty := Obj(map[]);
    var k :| k in patch.members && NullInside(patch.members[k]);
    KeptWhole(patch, k);
    NullsVanish(empty, patch);
    hide Merge, MergePatch;
  }

  /** Into an empty object a member goes as it is, nulls and all. */
  lemma KeptWhole(patch: Json, k: string)
    requires patch.Obj? && k in patch.members && NullInside(patch.members[k])
    ensures var m := Merge(Obj(map[]), patch);
            k in m.members && m.members[k] == patch.members[k] && NullInside(m)
  {
    MergeAt(Obj(map[]), patch, k);
  }

  // --------------------------------------------------------------- idempotence

  lemma {:induction false} MergeAgain(base: Json, patch: Json)
    requires base.Obj? && patch.Obj? && !NestedNull(patch)
    ensures Merge(Merge(base, patch), patch) == Merge(base, patch)
    decreases patch
  {
    var once := Merge(base, patch);
    forall k | k in once.members && k in patch.members
      ensures MergeMember(once, patch, k) == once.members[k]
    {
      MemberAgain(base, patch, k);
    }
    assert Merge(once, patch).members == once.members;
  }

  lemma {:induction false} MemberAgain(base: Json, patch: Json, k: string)
    requires base.Obj? && patch.Obj? && !NestedNull(patch) && k in patch.members && !patch.members[k].Null?
    ensures MergeMember(Merge(base, patch), patch, k) == Merge(base, patch).members[k]
    decreases patch, 0
  {
    var value := patch.members[k];
    assert !NullInside(value);
    if value.Obj? {
      assert !NestedNull(value);
      if k in base.members && base.members[k].Obj? {
        MergeAgain(base.members[k], value);
      } else {
        MergeSelf(value);
      }
    }
  }

  lemma {:induction false} MergeSelf(value: Json)
    requires value.Obj? && !NullInside(value)
    ensures Merge(value, value) == value
    decreases value
  {
    forall k | k in value.members ensures MergeMember(value, value, k) == value.members[k] {
      if value.members[k].Obj? {
        MergeSelf(value.members[k]);
      }
    }
    assert Merge(value, value).members == value.members;
  }

  /** Merging twice is merging once, for every base, exactly when the patch has
      no nested null. */
  lemma IdempotentIff(patch: Json)
    requires patch.Obj?
    ensures (forall base: Json :: base.Obj? ==> Merge(Merge(base, patch), patch) == Merge(base, patch))
       <==> !NestedNull(patch)
  {
    hide Merge, NestedNull;
    if NestedNull(patch) {
      EmptyNotTwice(patch);
      assert Obj(map[]).Obj?;
    } else {
      forall base: Json | base.Obj? ensures Merge(Merge(base, patch), patch) == Merge(base, patch) {
        MergeAgain(base, patch);
      }
    }
  }

  lemma EmptyNotTwice(patch: Json)
    requires NestedNull(patch)
    ensures Merge(Merge(Obj(map[]), patch), patch) != Merge(Obj(map[]), patch)
  {
    var k :| k in patch.members && NullInside(patch.members[k]);
    var once := Merge(Obj(map[]), patch);
    KeptWhole(patch, k);
    MergeSelfDrops(patch.members[k]);
    MergeAt(once, patch, k);
    assert MergeMember(once, patch, k) == Merge(patch.members[k], patch.members[k]);
    hide Merge;
  }

  lemma {:induction false} MergeSelfDrops(value: Json)
    requires NullInside(value)
    ensures Merge(value, value) != value
    decreases value
  {
    var k :| k in value.members && (value.members[k].Null? || NullInside(value.members[k]));
    if !value.members[k].Null? {
      MergeSelfDrops(value.members[k]);
      assert Merge(value, value).members[k] == Merge(value.members[k], value.members[k]);
    }
  }
}
