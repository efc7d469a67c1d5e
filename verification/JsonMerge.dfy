/** JSON merge patch (RFC 7396): basic_json::merge_patch. */
module JsonMerge {
  import opened StringOrder
  import opened Wrappers
  import opened JsonValue

  /** The MergePatch function of section 2 of RFC 7396, with the effect of its loop written out. */
  function Merge(target: Json, patch: Json): Json
    decreases patch, 1
  {
    if patch.Object? then Object(MergedMembers(Members(target), patch)) else patch
  }

  /** The members of an object; anything else counts as an empty object. */
  function Members(j: Json): map<string, Json> {
    if j.Object? then j.members else map[]
  }

  /** Nulls in the patch remove, other values are merged, what the patch does not name stays. */
  function MergedMembers(m: map<string, Json>, patch: Json): map<string, Json>
    requires patch.Object?
    decreases patch, 0
  {
    map k | k in m.Keys + patch.members.Keys && (k in patch.members ==> !patch.members[k].Null?) ::
      if k in patch.members then Merge(if k in m then m[k] else Null, patch.members[k]) else m[k]
  }

  /** One turn of the loop of RFC 7396: one name/value pair of the patch. */
  function Turn(m: map<string, Json>, name: string, value: Json): map<string, Json> {
    if value.Null? then m - {name}
    else m[name := Merge(if name in m then m[name] else Null, value)]
  }

  function Turns(m: map<string, Json>, patch: map<string, Json>, names: seq<string>): map<string, Json>
    requires forall k :: k in names ==> k in patch
    decreases |names|
  {
    if names == [] then m else Turns(Turn(m, names[0], patch[names[0]]), patch, names[1..])
  }

  /** The part of the patch that is under these names. */
  function Part(patch: map<string, Json>, names: seq<string>): Json {
    Object(map k | k in patch && k in names :: patch[k])
  }

  lemma PartOfOneMore(patch: map<string, Json>, name: string, rest: seq<string>)
    requires name in patch && name !in rest
    ensures Part(patch, [name] + rest) == Object(Part(patch, rest).members[name := patch[name]])
    ensures name !in Part(patch, rest).members
  {
    assert forall k :: k in [name] + rest <==> k == name || k in rest;
  }

  lemma TurnFirst(m: map<string, Json>, p: map<string, Json>, name: string, value: Json)
    requires name !in p
    ensures MergedMembers(Turn(m, name, value), Object(p)) == MergedMembers(m, Object(p[name := value]))
  {
    hide Merge;
    var l, r := MergedMembers(Turn(m, name, value), Object(p)), MergedMembers(m, Object(p[name := value]));
    assert l.Keys == r.Keys;
    forall k | k in l
      ensures l[k] == r[k]
    {}
  }

  lemma TurnThenRest(m: map<string, Json>, patch: map<string, Json>, name: string, rest: seq<string>)
    requires name in patch && name !in rest && forall k :: k in rest ==> k in patch
    ensures MergedMembers(Turn(m, name, patch[name]), Part(patch, rest)) == MergedMembers(m, Part(patch, [name] + rest))
  {
    hide Merge, MergedMembers, Turn, Part;
    PartOfOneMore(patch, name, rest);
    PartIsObject(patch, rest);
    TurnFirst(m, Part(patch, rest).members, name, patch[name]);
  }

  lemma PartIsObject(patch: map<string, Json>, names: seq<string>)
    ensures Part(patch, names).Object?
  {}

  /** Whatever the order in which the pairs of the patch come, the result is the same. */
  lemma {:induction false} AnyOrder(m: map<string, Json>, patch: map<string, Json>, names: seq<string>)
    requires forall k :: k in names ==> k in patch
    requires forall i, j :: 0 <= i < j < |names| ==> names[i] != names[j]
    ensures Turns(m, patch, names) == MergedMembers(m, Part(patch, names))
    decreases |names|
  {
    if names == [] {
      assert MergedMembers(m, Part(patch, [])) == m;
    } else {
      assert names[0] !in names[1..];
      AnyOrder(Turn(m, names[0], patch[names[0]]), patch, names[1..]);
      TurnThenRest(m, patch, names[0], names[1..]);
      assert [names[0]] + names[1..] == names;
    }
  }

  lemma WholePart(patch: map<string, Json>, names: seq<string>)
    requires forall k :: k in names <==> k in patch
    ensures Part(patch, names) == Object(patch)
  {
    assert Part(patch, names).members == patch;
  }

  lemma {:induction false} TurnsStep(m: map<string, Json>, patch: map<string, Json>, names: seq<string>, i: nat)
    requires i < |names| && forall k :: k in names ==> k in patch
    ensures Turns(m, patch, names[..i + 1]) == Turn(Turns(m, patch, names[..i]), names[i], patch[names[i]])
    decreases i
  {
    if i == 0 {
      assert names[..1][1..] == [];
    } else {
      var next := Turn(m, names[0], patch[names[0]]);
      TurnsStep(next, patch, names[1..], i - 1);
      assert names[..i + 1][1..] == names[1..][..i] && names[..i][1..] == names[1..][..i - 1];
    }
  }

  /** merge_patch as it runs: the members of *this are erased and merged one after the other. */
  method MergePatch(target: Json, patch: Json) returns (result: Json)
    ensures result == Merge(target, patch)
    decreases patch
  {
    result := target;
    if !patch.Object? {
      return patch;
    }
    if !result.Object? {
      result := Object(map[]);
    }
    var names := SortedKeys(patch.members.Keys);
    ghost var start := result.members;
    for i := 0 to |names|
      invariant result.Object?
      invariant result.members == Turns(start, patch.members, names[..i])
    {
      var name := names[i];
      var value := patch.members[name];
      TurnsStep(start, patch.members, names, i);
      if value.Null? {
        result := Object(result.members - {name});
      } else {
        var member := MergePatch(if name in result.members then result.members[name] else Null, value);
        result := Object(result.members[name := member]);
      }
    }
    assert names[..|names|] == names;
    AnyOrder(start, patch.members, names);
    WholePart(patch.members, names);
  }

  /** Applying the same patch a second time changes nothing. */
  lemma {:induction false} Idempotent(target: Json, patch: Json)
    ensures Merge(Merge(target, patch), patch) == Merge(target, patch)
    decreases patch
  {
    if patch.Object? {
      var m := Members(target);
      var once := MergedMembers(m, patch);
      var twice := MergedMembers(once, patch);
      assert twice.Keys == once.Keys;
      forall k | k in once ensures twice[k] == once[k] {
        if k in patch.members {
          Idempotent(if k in m then m[k] else Null, patch.members[k]);
        }
      }
    }
  }

  /** What the patch deletes is gone, and every other member the patch does not name is untouched. */
  lemma DeletesAndKeeps(target: Json, patch: Json, k: string)
    requires patch.Object?
    ensures Merge(target, patch).Object?
    ensures k in patch.members && patch.members[k].Null? ==> k !in Merge(target, patch).members
    ensures k !in patch.members && k in Members(target) ==>
      k in Merge(target, patch).members && Merge(target, patch).members[k] == Members(target)[k]
    ensures k in Merge(target, patch).members ==> k in patch.members || k in Members(target)
  {}

  // ----- place by place -----

  /** What is at the end of a path through objects. */
  function At(j: Json, path: seq<string>): Option<Json> {
    if path == [] then Some(j)
    else if j.Object? && path[0] in j.members then At(j.members[path[0]], path[1..])
    else None
  }

  /** The patch names something on the path, or a whole that the path leads into. */
  predicate Names(patch: Json, path: seq<string>) {
    path == [] || !patch.Object? || (path[0] in patch.members && Names(patch.members[path[0]], path[1..]))
  }

  /** A patch that is no object replaces the target. */
  lemma ReplacesWhole(target: Json, patch: Json)
    requires !patch.Object?
    ensures Merge(target, patch) == patch
  {}

  /** A place that the patch does not name is untouched, be it there or not. */
  lemma {:induction false} Untouched(target: Json, patch: Json, path: seq<string>)
    requires !Names(patch, path)
    ensures At(Merge(target, patch), path) == At(target, path)
    decreases patch
  {
    var k := path[0];
    if k in patch.members {
      Untouched(if k in Members(target) then Members(target)[k] else Null, patch.members[k], path[1..]);
    }
  }

  /** Where the patch has a null, nothing is left. */
  lemma {:induction false} NullDeletes(target: Json, patch: Json, path: seq<string>)
    requires path != [] && At(patch, path) == Some(Null)
    ensures At(Merge(target, patch), path) == None
    decreases patch
  {
    var k := path[0];
    if |path| > 1 {
      NullDeletes(if k in Members(target) then Members(target)[k] else Null, patch.members[k], path[1..]);
    }
  }

  /** Where the patch has a value that is neither an object nor null, the result has that value. */
  lemma {:induction false} ValueSet(target: Json, patch: Json, path: seq<string>)
    requires At(patch, path).Some? && !At(patch, path).value.Object? && !At(patch, path).value.Null?
    ensures At(Merge(target, patch), path) == At(patch, path)
    decreases patch
  {
    if path != [] {
      var k := path[0];
      ValueSet(if k in Members(target) then Members(target)[k] else Null, patch.members[k], path[1..]);
    }
  }

  /** Where the patch has an object, the result has one. */
  lemma {:induction false} ObjectStays(target: Json, patch: Json, path: seq<string>)
    requires At(patch, path).Some? && At(patch, path).value.Object?
    ensures At(Merge(target, patch), path).Some? && At(Merge(target, patch), path).value.Object?
    decreases patch
  {
    if path != [] {
      var k := path[0];
      ObjectStays(if k in Members(target) then Members(target)[k] else Null, patch.members[k], path[1..]);
    }
  }
}
