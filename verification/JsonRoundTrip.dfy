/** source.patch(diff(source, target)) == target, and when it is not. */
module JsonRoundTrip {
  import opened StringOrder
  import opened Wrappers
  import opened Sequences
  import opened JsonValue
  import opened JsonEquality
  import opened JsonPointer
  import opened JsonPatch
  import opened JsonDiff

  /** The target, except that parts which compare equal stay as the source has them. */
  function Reconciled(s: Json, t: Json): Json
    decreases t, 1
  {
    if Eq(s, t) then s
    else if s.Array? && t.Array? then
      Array(ReconciledElements(s, t) + t.elements[Smaller(|s.elements|, |t.elements|)..])
    else if s.Object? && t.Object? then Object(t.members + ReconciledMembers(s, t))
    else t
  }

  function ReconciledElements(s: Json, t: Json): (r: seq<Json>)
    requires s.Array? && t.Array?
    ensures |r| == Smaller(|s.elements|, |t.elements|)
    decreases t, 0
  {
    seq(Smaller(|s.elements|, |t.elements|),
      i requires 0 <= i < Smaller(|s.elements|, |t.elements|) => Reconciled(s.elements[i], t.elements[i]))
  }

  function ReconciledMembers(s: Json, t: Json): map<string, Json>
    requires s.Object? && t.Object?
    decreases t, 0
  {
    map k | k in s.members && k in t.members :: Reconciled(s.members[k], t.members[k])
  }

  /** The reconciled value equals the target exactly when the target can equal anything at all. */
  lemma {:induction false} EqReconciled(s: Json, t: Json)
    ensures Eq(Reconciled(s, t), t) <==> Comparable(t)
    decreases t
  {
    var r := Reconciled(s, t);
    if Eq(s, t) {
      EqComparable(s, t);
    } else if s.Array? && t.Array? {
      assert r == Array(ReconciledElements(s, t) + t.elements[Smaller(|s.elements|, |t.elements|)..]);
      forall i | 0 <= i < |t.elements|
        ensures Eq(r.elements[i], t.elements[i]) <==> Comparable(t.elements[i])
      {
        if i < |s.elements| { EqReconciled(s.elements[i], t.elements[i]); } else { EqReflexive(t.elements[i]); }
      }
    } else if s.Object? && t.Object? {
      assert r == Object(t.members + ReconciledMembers(s, t));
      assert r.members.Keys == t.members.Keys;
      forall k | k in t.members
        ensures Eq(r.members[k], t.members[k]) <==> Comparable(t.members[k])
      {
        if k in s.members { EqReconciled(s.members[k], t.members[k]); } else { EqReflexive(t.members[k]); }
      }
    } else {
      EqReflexive(t);
    }
  }

  /** Nothing of the source is left where numbers meet numbers of their kind only. */
  lemma {:induction false} ReconciledUnmixed(s: Json, t: Json)
    requires !Mixed(s, t)
    ensures Reconciled(s, t) == t
    decreases t
  {
    EqIsEquality(s, t);
    if !Eq(s, t) {
      if s.Array? && t.Array? {
        forall i | 0 <= i < |s.elements| && i < |t.elements|
          ensures ReconciledElements(s, t)[i] == t.elements[i]
        {
          ReconciledUnmixed(s.elements[i], t.elements[i]);
        }
        var n := Smaller(|s.elements|, |t.elements|);
        assert ReconciledElements(s, t) == t.elements[..n];
        assert t.elements[..n] + t.elements[n..] == t.elements;
      } else if s.Object? && t.Object? {
        forall k | k in s.members && k in t.members
          ensures ReconciledMembers(s, t)[k] == t.members[k]
        {
          ReconciledUnmixed(s.members[k], t.members[k]);
        }
        assert t.members + ReconciledMembers(s, t) == t.members;
      }
    }
  }

  predicate AllLocal(ops: seq<Operation>) {
    forall op :: op in ops ==> Local(op)
  }

  /** Operations that diff may emit, and that turn one value into another without an error. */
  predicate Leads(j: Json, ops: seq<Operation>, k: Json) {
    AllLocal(ops) && ApplyAll(j, ops) == Ok(k)
  }

  lemma LeadsConcat(j: Json, a: seq<Operation>, k: Json, b: seq<Operation>, l: Json)
    requires Leads(j, a, k) && Leads(k, b, l)
    ensures Leads(j, a + b, l)
  {
    ApplyAllConcat(j, a, b);
  }

  lemma {:induction false} NestedLocal(p: Path, ops: seq<Operation>)
    requires AllLocal(ops) && p != []
    ensures AllLocal(NestAll(p, ops))
  {
    if ops != [] {
      NestedLocal(p, ops[1..]);
      assert Local(ops[0]);
    }
  }

  // ----- arrays -----

  lemma ChildOfArray(x: seq<Json>, i: nat)
    requires i < |x| <= SIZE_MAX
    ensures ArrayIndex(Decimal(i)) == Ok(i) && Decimal(i) != "-"
    ensures At(Array(x), [Decimal(i)]) == Ok(x[i])
    ensures forall v :: Put(Array(x), [Decimal(i)], v) == Array(x[i := v])
  {
    IndexRoundTrip(i);
    assert IsDigit(Decimal(i)[0]);
    assert [Decimal(i)][1..] == [];
  }

  lemma ElementApplies(x: seq<Json>, i: nat, ops: seq<Operation>, v: Json)
    requires i < |x| <= SIZE_MAX && Leads(x[i], ops, v)
    ensures Leads(Array(x), NestAll([Decimal(i)], ops), Array(x[i := v]))
  {
    ChildOfArray(x, i);
    ApplyAllBelow(Array(x), [Decimal(i)], ops);
    NestedLocal([Decimal(i)], ops);
  }

  lemma OneMoreChanged<T>(x: seq<T>, z: seq<T>)
    requires 0 < |z| <= |x|
    ensures var i := |z| - 1;
      var y := z[..i] + x[i..];
      |y| == |x| && y[i] == x[i] && y[i := z[i]] == z + x[|z|..]
  {}

  /** Each patch does its work on its own element: those reconciled so far, then the others untouched. */
  lemma {:induction false} ElementsApply(x: seq<Json>, nested: seq<seq<Operation>>, z: seq<Json>)
    requires |nested| == |z| <= |x| <= SIZE_MAX
    requires forall i :: 0 <= i < |z| ==> Leads(x[i], nested[i], z[i])
    ensures Leads(Array(x), ElementOps(nested), Array(z + x[|z|..]))
    decreases |z|
  {
    if z == [] {
      assert z + x[0..] == x;
    } else {
      hide Leads, NestAll, Decimal;
      var i := |z| - 1;
      ElementsApply(x, nested[..i], z[..i]);
      var y := z[..i] + x[i..];
      OneMoreChanged(x, z);
      ElementApplies(y, i, nested[i], z[i]);
      LeadsConcat(Array(x), ElementOps(nested[..i]), Array(y), NestAll([Decimal(i)], nested[i]), Array(z + x[|z|..]));
    }
  }

  /** Removing from the highest index down leaves the first elements as they were. */
  lemma {:induction false} RemovalsApply(x: seq<Json>, lo: nat)
    requires lo <= |x| <= SIZE_MAX
    ensures Leads(Array(x), Removals(lo, |x|), Array(x[..lo]))
    decreases |x|
  {
    if lo == |x| {
      assert x[..lo] == x;
    } else {
      var i := |x| - 1;
      ChildOfArray(x, i);
      assert [Decimal(i)][..0] == [];
      assert Remove(Array(x), [Decimal(i)]) == Ok(Array(x[..i] + x[i + 1..]));
      assert x[..i] + x[i + 1..] == x[..i];
      RemovalsApply(x[..i], lo);
      assert x[..i][..lo] == x[..lo];
    }
  }

  lemma {:induction false} AppendsApply(x: seq<Json>, y: seq<Json>)
    ensures Leads(Array(x), Appends(y), Array(x + y))
    decreases |y|
  {
    if y == [] {
      assert x + y == x;
    } else {
      assert ["-"][..0] == [];
      assert Add(Array(x), ["-"], y[0]) == Ok(Array(x + [y[0]]));
      AppendsApply(x + [y[0]], y[1..]);
      assert x + [y[0]] + y[1..] == x + y;
    }
  }

  /** Changing the common elements, then removing the rest. */
  lemma ArrayShrinks(x: seq<Json>, nested: seq<seq<Operation>>, z: seq<Json>)
    requires |nested| == |z| <= |x| <= SIZE_MAX
    requires forall i :: 0 <= i < |z| ==> Leads(x[i], nested[i], z[i])
    ensures Leads(Array(x), ElementOps(nested) + Removals(|z|, |x|), Array(z))
  {
    hide Leads, ElementOps, Removals;
    var w := z + x[|z|..];
    ElementsApply(x, nested, z);
    RemovalsApply(w, |z|);
    assert w[..|z|] == z;
    LeadsConcat(Array(x), ElementOps(nested), Array(w), Removals(|z|, |x|), Array(z));
  }

  /** The three parts of an array patch one after the other. */
  lemma ArrayPartsApply(x: seq<Json>, y: seq<Json>, nested: seq<seq<Operation>>, z: seq<Json>)
    requires |nested| == |z| <= |x| <= SIZE_MAX && |z| <= |y|
    requires forall i :: 0 <= i < |z| ==> Leads(x[i], nested[i], z[i])
    ensures Leads(Array(x), ElementOps(nested) + Removals(|z|, |x|) + Appends(y[|z|..]), Array(z + y[|z|..]))
  {
    hide Leads, ElementOps, Removals, Appends;
    var rest := y[|z|..];
    ArrayShrinks(x, nested, z);
    AppendsApply(z, rest);
    LeadsConcat(Array(x), ElementOps(nested) + Removals(|z|, |x|), Array(z), Appends(rest), Array(z + rest));
  }

  lemma ArrayDiffApplies(s: Json, t: Json)
    requires s.Array? && t.Array? && Representable(s) && !Eq(s, t)
    requires forall i :: 0 <= i < |s.elements| && i < |t.elements| ==> Applies(s.elements[i], t.elements[i])
    ensures Applies(s, t)
  {
    var nested, z := ElementDiffs(s, t), ReconciledElements(s, t);
    forall i | 0 <= i < |z| ensures Leads(s.elements[i], nested[i], z[i]) {
      assert Applies(s.elements[i], t.elements[i]);
    }
    ArrayPartsApply(s.elements, t.elements, nested, z);
  }

  // ----- objects -----

  /** The members once these keys have been dealt with. */
  function MembersResult(m: map<string, Json>, z: map<string, Json>, keys: seq<string>): map<string, Json> {
    map k | k in m && (k in keys ==> k in z) :: if k in keys then z[k] else m[k]
  }

  /** The patches of the members turn those of m that are in z into those of z. */
  predicate MembersTurn(m: map<string, Json>, nested: map<string, seq<Operation>>, z: map<string, Json>) {
    && nested.Keys == z.Keys
    && forall k :: k in z ==> k in m && Leads(m[k], nested[k], z[k])
  }

  lemma MemberApplies(m: map<string, Json>, nested: map<string, seq<Operation>>, z: map<string, Json>,
                      keys: seq<string>, key: string)
    requires MembersTurn(m, nested, z) && key in m && key !in keys
    ensures Leads(Object(MembersResult(m, z, keys)), MemberOp(nested, key), Object(MembersResult(m, z, keys + [key])))
  {
    var r := MembersResult(m, z, keys);
    if key in z {
      assert [key][1..] == [];
      assert At(Object(r), [key]) == Ok(m[key]);
      ApplyAllBelow(Object(r), [key], nested[key]);
      NestedLocal([key], nested[key]);
      assert r[key := z[key]] == MembersResult(m, z, keys + [key]);
    } else {
      assert [key][..0] == [];
      assert ApplyAll(Object(r), [RemoveOp([key])]) == Ok(Object(r - {key}));
      assert r - {key} == MembersResult(m, z, keys + [key]);
    }
  }

  lemma {:induction false} MembersApply(m: map<string, Json>, nested: map<string, seq<Operation>>, z: map<string, Json>,
                                        keys: seq<string>)
    requires MembersTurn(m, nested, z) && (forall k :: k in keys ==> k in m) && Distinct(keys)
    ensures Leads(Object(m), MemberOps(nested, keys), Object(MembersResult(m, z, keys)))
    decreases |keys|
  {
    if keys == [] {
      assert MembersResult(m, z, []) == m;
    } else {
      var init, key := keys[..|keys| - 1], keys[|keys| - 1];
      MembersApply(m, nested, z, init);
      assert keys == init + [key];
      MemberApplies(m, nested, z, init, key);
      LeadsConcat(Object(m), MemberOps(nested, init), Object(MembersResult(m, z, init)),
                  MemberOp(nested, key), Object(MembersResult(m, z, keys)));
    }
  }

  function Added(mine: set<string>, n: map<string, Json>, keys: seq<string>): map<string, Json> {
    map key | key in n && key in keys && key !in mine :: n[key]
  }

  lemma NewMemberApplies(m: map<string, Json>, mine: set<string>, n: map<string, Json>, keys: seq<string>, key: string)
    requires key in n && key !in mine
    ensures Leads(Object(m + Added(mine, n, keys)), [AddOp([key], n[key])], Object(m + Added(mine, n, keys + [key])))
  {
    var r := m + Added(mine, n, keys);
    assert [key][..0] == [];
    assert ApplyAll(Object(r), [AddOp([key], n[key])]) == Ok(Object(r[key := n[key]]));
    assert r[key := n[key]] == m + Added(mine, n, keys + [key]);
  }

  lemma {:induction false} NewMembersApply(m: map<string, Json>, mine: set<string>, n: map<string, Json>,
      keys: seq<string>)
    requires forall k :: k in keys ==> k in n
    ensures Leads(Object(m), NewMembers(mine, n, keys), Object(m + Added(mine, n, keys)))
    decreases |keys|
  {
    if keys == [] {
      assert m + Added(mine, n, []) == m;
    } else {
      var init, key := keys[..|keys| - 1], keys[|keys| - 1];
      NewMembersApply(m, mine, n, init);
      assert keys == init + [key];
      if key in mine {
        assert Added(mine, n, keys) == Added(mine, n, init);
        assert NewMembers(mine, n, init) + [] == NewMembers(mine, n, init);
      } else {
        NewMemberApplies(m, mine, n, init, key);
        LeadsConcat(Object(m), NewMembers(mine, n, init), Object(m + Added(mine, n, init)),
                    [AddOp([key], n[key])], Object(m + Added(mine, n, keys)));
      }
    }
  }

  lemma MembersTogether(m: map<string, Json>, n: map<string, Json>, z: map<string, Json>, mine: seq<string>,
      other: seq<string>)
    requires z.Keys == m.Keys * n.Keys
    requires (forall k :: k in mine <==> k in m) && (forall k :: k in other <==> k in n)
    ensures MembersResult(m, z, mine) + Added(m.Keys, n, other) == n + z
  {}

  /** The two parts of an object patch one after the other. */
  lemma ObjectPartsApply(m: map<string, Json>, n: map<string, Json>, nested: map<string, seq<Operation>>,
                         z: map<string, Json>, mine: seq<string>, other: seq<string>)
    requires MembersTurn(m, nested, z) && z.Keys == m.Keys * n.Keys
    requires Distinct(mine) && (forall k :: k in mine <==> k in m) && (forall k :: k in other <==> k in n)
    ensures Leads(Object(m), MemberOps(nested, mine) + NewMembers(m.Keys, n, other), Object(n + z))
  {
    MembersApply(m, nested, z, mine);
    var kept := MembersResult(m, z, mine);
    NewMembersApply(kept, m.Keys, n, other);
    MembersTogether(m, n, z, mine, other);
    LeadsConcat(Object(m), MemberOps(nested, mine), Object(kept), NewMembers(m.Keys, n, other), Object(n + z));
  }

  lemma ObjectDiffApplies(s: Json, t: Json)
    requires s.Object? && t.Object? && !Eq(s, t)
    requires forall k :: k in s.members && k in t.members ==> Applies(s.members[k], t.members[k])
    ensures Applies(s, t)
  {
    var m, n, nested, z := s.members, t.members, MemberDiffs(s, t), ReconciledMembers(s, t);
    forall k | k in z ensures Leads(m[k], nested[k], z[k]) {
      assert Applies(m[k], n[k]);
    }
    ObjectPartsApply(m, n, nested, z, SortedKeys(m.Keys), SortedKeys(n.Keys));
  }

  /** Replaying the operations on the source gives the reconciled value, without an error. */
  predicate Applies(s: Json, t: Json) {
    Leads(s, DiffOps(s, t), Reconciled(s, t))
  }

  lemma {:induction false} DiffApplies(s: Json, t: Json)
    requires Representable(s)
    ensures Applies(s, t)
    decreases t
  {
    if !Eq(s, t) {
      if s.Array? && t.Array? {
        forall i | 0 <= i < |s.elements| && i < |t.elements| ensures Applies(s.elements[i], t.elements[i]) {
          DiffApplies(s.elements[i], t.elements[i]);
        }
        ArrayDiffApplies(s, t);
      } else if s.Object? && t.Object? {
        forall k | k in s.members && k in t.members ensures Applies(s.members[k], t.members[k]) {
          DiffApplies(s.members[k], t.members[k]);
        }
        ObjectDiffApplies(s, t);
      }
    }
  }

  // ----- main results -----

  lemma NestAllNothing(ops: seq<Operation>)
    ensures NestAll([], ops) == ops
  {
    if ops != [] {
      assert [] + ops[0].path == ops[0].path;
      NestAllNothing(ops[1..]);
    }
  }

  /** diff(s, t, p) applied to a document that holds s at p changes the value at p, and only it. */
  lemma DiffAtPlace(doc: Json, p: Path, s: Json, t: Json)
    requires At(doc, p) == Ok(s) && Representable(s)
    ensures Patched(doc, Array(EncodeAll(PointerString(p), DiffOps(s, t)))) == Ok(Put(doc, p, Reconciled(s, t)))
    ensures At(Put(doc, p, Reconciled(s, t)), p) == Ok(Reconciled(s, t))
    ensures Eq(Reconciled(s, t), t) <==> Comparable(t)
    ensures forall q :: Apart(p, q) ==> At(Put(doc, p, Reconciled(s, t)), q) == At(doc, q)
  {
    DiffApplies(s, t);
    PatchFromEncoded(doc, p, DiffOps(s, t));
    ApplyAllBelow(doc, p, DiffOps(s, t));
    AtPut(doc, p, Reconciled(s, t));
    EqReconciled(s, t);
    forall q | Apart(p, q) ensures At(Put(doc, p, Reconciled(s, t)), q) == At(doc, q) {
      PutFrames(doc, p, Reconciled(s, t), q);
    }
  }

  /**
    The law of diff and patch. Applying the patch never fails, and its result equals the target
    exactly when the target holds no NaN and no discarded value. It is the target itself if numbers
    stand opposite numbers of their kind only.
   */
  method PatchWithDiff(source: Json, target: Json) returns (patched: Outcome)
    requires Representable(source)
    ensures patched.Ok?
    ensures Eq(patched.value, target) <==> Comparable(target)
    ensures !Mixed(source, target) ==> patched.value == target
  {
    if !Mixed(source, target) {
      ReconciledUnmixed(source, target);
    }
    var patch := Diff(source, target, "");
    patched := Patch(source, Array(patch));
    DiffAtPlace(source, [], source, target);
  }

  /** A target that holds NaN is not reached: the patched value does not equal it. */
  lemma NaNIsNotReached()
    ensures var t := Array([Real(NaN)]);
      Patched(Null, Array(EncodeAll("", DiffOps(Null, t)))) == Ok(t) && !Eq(t, t)
  {
    var t := Array([Real(NaN)]);
    DiffAtPlace(Null, [], Null, t);
    assert !Comparable(t.elements[0]);
    EqReflexive(t);
  }

  lemma {:induction false} EmptyElements(nested: seq<seq<Operation>>)
    requires ElementOps(nested) == []
    ensures forall i :: 0 <= i < |nested| ==> nested[i] == []
  {
    if nested != [] { EmptyElements(nested[..|nested| - 1]); }
  }

  lemma {:induction false} EmptyMembers(nested: map<string, seq<Operation>>, keys: seq<string>)
    requires MemberOps(nested, keys) == []
    ensures forall key :: key in keys ==> key in nested && nested[key] == []
  {
    if keys != [] {
      EmptyMembers(nested, keys[..|keys| - 1]);
      assert MemberOp(nested, keys[|keys| - 1]) == [];
    }
  }

  lemma {:induction false} EmptyNewMembers(mine: set<string>, n: map<string, Json>, keys: seq<string>)
    requires forall k :: k in keys ==> k in n
    requires NewMembers(mine, n, keys) == []
    ensures forall key :: key in keys ==> key in mine
  {
    if keys != [] { EmptyNewMembers(mine, n, keys[..|keys| - 1]); }
  }

  lemma EmptyArrayDiff(s: Json, t: Json)
    requires s.Array? && t.Array? && !Eq(s, t) && DiffOps(s, t) == []
    ensures |s.elements| == |t.elements|
    ensures forall i :: 0 <= i < |s.elements| ==> DiffOps(s.elements[i], t.elements[i]) == []
  {
    var nested := ElementDiffs(s, t);
    var n := |nested|;
    assert ElementOps(nested) == [] && Removals(n, |s.elements|) == [] && Appends(t.elements[n..]) == [];
    EmptyElements(nested);
    forall i | 0 <= i < n ensures DiffOps(s.elements[i], t.elements[i]) == [] { assert nested[i] == []; }
  }

  lemma EmptyObjectDiff(s: Json, t: Json)
    requires s.Object? && t.Object? && !Eq(s, t) && DiffOps(s, t) == []
    ensures s.members.Keys == t.members.Keys
    ensures forall k :: k in s.members ==> DiffOps(s.members[k], t.members[k]) == []
  {
    var nested := MemberDiffs(s, t);
    EmptyMembers(nested, SortedKeys(s.members.Keys));
    EmptyNewMembers(s.members.Keys, t.members, SortedKeys(t.members.Keys));
    forall k | k in s.members ensures k in t.members && DiffOps(s.members[k], t.members[k]) == [] {
      assert k in nested && nested[k] == [];
    }
  }

  /** Without numbers of different kinds, the patch is empty exactly when there is nothing to change. */
  lemma EmptyDiffUnmixed(s: Json, t: Json)
    requires !Mixed(s, t)
    ensures DiffOps(s, t) == [] <==> s == t && Comparable(t)
  {
    EmptyDiff(s, t);
    EqIsEquality(s, t);
  }

  /** The patch is empty exactly when the two values are equal. */
  lemma {:induction false} EmptyDiff(s: Json, t: Json)
    ensures DiffOps(s, t) == [] <==> Eq(s, t)
    decreases t
  {
    if DiffOps(s, t) == [] && !Eq(s, t) {
      if s.Array? && t.Array? {
        EmptyArrayDiff(s, t);
        forall i | 0 <= i < |s.elements| ensures Eq(s.elements[i], t.elements[i]) {
          EmptyDiff(s.elements[i], t.elements[i]);
        }
      } else if s.Object? && t.Object? {
        EmptyObjectDiff(s, t);
        forall k | k in s.members ensures Eq(s.members[k], t.members[k]) {
          EmptyDiff(s.members[k], t.members[k]);
        }
      }
    }
  }
}
