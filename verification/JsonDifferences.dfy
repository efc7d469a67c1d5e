/** A diff touches only what differs. */
module JsonDifferences {
  import opened Wrappers
  import opened StringOrder
  import opened Sequences
  import opened JsonValue
  import opened JsonPointer
  import opened JsonPatch
  import opened JsonDiff
  import opened JsonRoundTrip

  predicate BothContainers(a: Json, b: Json) {
    (a.Array? && b.Array?) || (a.Object? && b.Object?)
  }

  /** The place where the last token of a path is looked up. */
  function ParentAt(j: Json, path: Path): Outcome
    requires path != []
  {
    At(j, path[..|path| - 1])
  }

  /**
    An operation that is called for: it replaces a value by the different one of the target, removes
    what the target lacks, or adds what the source lacks. Containers of the same kind are not replaced.
   */
  predicate CalledFor(s: Json, t: Json, op: Operation) {
    match op
    case ReplaceOp(path, v) =>
      At(s, path).Ok? && At(t, path) == Ok(v) && !Eq(At(s, path).value, v) && !BothContainers(At(s, path).value, v)
    case RemoveOp(path) => path != [] && At(s, path).Ok? && At(t, path).Err?
    case AddOp(path, v) =>
      && path != [] && At(s, path).Err? && ParentAt(t, path).Ok?
      && (At(t, path) == Ok(v) ||
          (ParentAt(t, path).value.Array? && path[|path| - 1] == "-" && v in ParentAt(t, path).value.elements))
    case _ => false
  }

  lemma CalledForBelow(s: Json, t: Json, token: string, op: Operation)
    requires Child(s, token).Ok? && Child(t, token).Ok?
    requires CalledFor(Child(s, token).value, Child(t, token).value, op)
    ensures CalledFor(s, t, Nest([token], op))
  {
    var path := [token] + op.path;
    assert path[1..] == op.path;
    if op.path != [] {
      assert path[..|path| - 1] == [token] + op.path[..|op.path| - 1];
      assert path[..|path| - 1][1..] == op.path[..|op.path| - 1];
    }
  }

  predicate AllCalledFor(s: Json, t: Json, ops: seq<Operation>) {
    forall op :: op in ops ==> CalledFor(s, t, op)
  }

  lemma {:induction false} AllCalledForBelow(s: Json, t: Json, token: string, ops: seq<Operation>)
    requires Child(s, token).Ok? && Child(t, token).Ok?
    requires AllCalledFor(Child(s, token).value, Child(t, token).value, ops)
    ensures AllCalledFor(s, t, NestAll([token], ops))
  {
    hide CalledFor;
    if ops != [] {
      CalledForBelow(s, t, token, ops[0]);
      AllCalledForBelow(s, t, token, ops[1..]);
    }
  }

  lemma AtOne(j: Json, token: string)
    ensures At(j, [token]) == Child(j, token)
  {
    assert [token][1..] == [];
  }

  lemma RemovalCalledFor(s: Json, t: Json, token: string)
    requires Child(s, token).Ok? && Child(t, token).Err?
    ensures CalledFor(s, t, RemoveOp([token]))
  {
    AtOne(s, token);
    AtOne(t, token);
  }

  lemma AdditionCalledFor(s: Json, t: Json, token: string, v: Json)
    requires Child(s, token).Err?
    requires Child(t, token) == Ok(v) || (t.Array? && token == "-" && v in t.elements)
    ensures CalledFor(s, t, AddOp([token], v))
  {
    AtOne(s, token);
    AtOne(t, token);
    assert [token][..0] == [];
  }

  // ----- arrays -----

  lemma ElementChild(x: seq<Json>, i: nat)
    requires i < SIZE_MAX
    ensures Child(Array(x), Decimal(i)) == if i < |x| then Ok(x[i]) else Err(OutOfRange(401))
  {
    IndexRoundTrip(i);
    assert IsDigit(Decimal(i)[0]);
  }

  lemma {:induction false} ElementsCalledFor(s: Json, t: Json, nested: seq<seq<Operation>>)
    requires s.Array? && t.Array? && |nested| <= |s.elements| <= SIZE_MAX && |nested| <= |t.elements|
    requires forall i :: 0 <= i < |nested| ==> AllCalledFor(s.elements[i], t.elements[i], nested[i])
    ensures AllCalledFor(s, t, ElementOps(nested))
  {
    hide CalledFor;
    if nested != [] {
      var i := |nested| - 1;
      ElementsCalledFor(s, t, nested[..i]);
      ElementChild(s.elements, i);
      ElementChild(t.elements, i);
      AllCalledForBelow(s, t, Decimal(i), nested[i]);
    }
  }

  lemma {:induction false} RemovalsCalledFor(s: Json, t: Json, lo: nat, hi: nat)
    requires s.Array? && t.Array? && |t.elements| <= lo && hi <= |s.elements| <= SIZE_MAX
    ensures AllCalledFor(s, t, Removals(lo, hi))
    decreases hi
  {
    hide CalledFor;
    if lo < hi {
      ElementChild(s.elements, hi - 1);
      ElementChild(t.elements, hi - 1);
      RemovalCalledFor(s, t, Decimal(hi - 1));
      RemovalsCalledFor(s, t, lo, hi - 1);
    }
  }

  lemma {:induction false} AppendsCalledFor(s: Json, t: Json, x: seq<Json>)
    requires s.Array? && t.Array? && forall v :: v in x ==> v in t.elements
    ensures AllCalledFor(s, t, Appends(x))
    decreases |x|
  {
    hide CalledFor;
    if x != [] {
      AdditionCalledFor(s, t, "-", x[0]);
      AppendsCalledFor(s, t, x[1..]);
    }
  }

  // ----- objects -----

  lemma {:induction false} MembersCalledFor(s: Json, t: Json, nested: map<string, seq<Operation>>, keys: seq<string>)
    requires s.Object? && t.Object? && nested.Keys == s.members.Keys * t.members.Keys
    requires forall k :: k in nested ==> AllCalledFor(s.members[k], t.members[k], nested[k])
    requires forall k :: k in keys ==> k in s.members
    ensures AllCalledFor(s, t, MemberOps(nested, keys))
    decreases |keys|
  {
    hide CalledFor;
    if keys != [] {
      var key := keys[|keys| - 1];
      MembersCalledFor(s, t, nested, keys[..|keys| - 1]);
      if key in nested {
        AllCalledForBelow(s, t, key, nested[key]);
      } else {
        RemovalCalledFor(s, t, key);
      }
    }
  }

  lemma {:induction false} NewMembersCalledFor(s: Json, t: Json, keys: seq<string>)
    requires s.Object? && t.Object? && forall k :: k in keys ==> k in t.members
    ensures AllCalledFor(s, t, NewMembers(s.members.Keys, t.members, keys))
    decreases |keys|
  {
    hide CalledFor;
    if keys != [] {
      var key := keys[|keys| - 1];
      NewMembersCalledFor(s, t, keys[..|keys| - 1]);
      if key !in s.members {
        AdditionCalledFor(s, t, key, t.members[key]);
      }
    }
  }

  /** Every operation of a diff is called for. */
  lemma {:induction false} DiffIsCalledFor(s: Json, t: Json)
    requires Representable(s)
    ensures AllCalledFor(s, t, DiffOps(s, t))
    decreases t
  {
    hide CalledFor;
    if Eq(s, t) {
    } else if s.Array? && t.Array? {
      var nested := ElementDiffs(s, t);
      forall i | 0 <= i < |nested|
        ensures AllCalledFor(s.elements[i], t.elements[i], nested[i])
      {
        DiffIsCalledFor(s.elements[i], t.elements[i]);
      }
      ElementsCalledFor(s, t, nested);
      if |nested| < |s.elements| {
        RemovalsCalledFor(s, t, |nested|, |s.elements|);
      }
      AppendsCalledFor(s, t, t.elements[|nested|..]);
    } else if s.Object? && t.Object? {
      var nested := MemberDiffs(s, t);
      forall k | k in nested
        ensures AllCalledFor(s.members[k], t.members[k], nested[k])
      {
        DiffIsCalledFor(s.members[k], t.members[k]);
      }
      MembersCalledFor(s, t, nested, SortedKeys(s.members.Keys));
      NewMembersCalledFor(s, t, SortedKeys(t.members.Keys));
    } else {
      ReplacementCalledFor(s, t);
    }
  }

  lemma ReplacementCalledFor(s: Json, t: Json)
    requires !Eq(s, t) && !BothContainers(s, t)
    ensures AllCalledFor(s, t, [ReplaceOp([], t)])
  {}
}
