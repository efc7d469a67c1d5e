/** Building a patch that turns one value into another: basic_json::diff. */
module JsonDiff {
  import opened StringOrder
  import opened JsonValue
  import opened JsonPointer
  import opened JsonPatch

  // ----- the operations diff emits, with paths relative to the two values -----

  function Smaller(m: nat, n: nat): nat {
    if m < n then m else n
  }

  function DiffOps(s: Json, t: Json): seq<Operation>
    decreases t, 1
  {
    if Eq(s, t) then []
    else if s.Array? && t.Array? then
      var nested := ElementDiffs(s, t);
      ElementOps(nested) + Removals(|nested|, |s.elements|) + Appends(t.elements[|nested|..])
    else if s.Object? && t.Object? then
      MemberOps(MemberDiffs(s, t), SortedKeys(s.members.Keys)) +
      NewMembers(s.members.Keys, t.members, SortedKeys(t.members.Keys))
    else [ReplaceOp([], t)]
  }

  /** The patches of the elements both arrays have. */
  function ElementDiffs(s: Json, t: Json): (r: seq<seq<Operation>>)
    requires s.Array? && t.Array?
    ensures |r| == Smaller(|s.elements|, |t.elements|)
    decreases t, 0
  {
    seq(Smaller(|s.elements|, |t.elements|),
      i requires 0 <= i < Smaller(|s.elements|, |t.elements|) => DiffOps(s.elements[i], t.elements[i]))
  }

  /** The patches of the members both objects have. */
  function MemberDiffs(s: Json, t: Json): map<string, seq<Operation>>
    requires s.Object? && t.Object?
    decreases t, 0
  {
    map k | k in s.members && k in t.members :: DiffOps(s.members[k], t.members[k])
  }

  /** Patches of elements, each moved under its index. */
  function ElementOps(nested: seq<seq<Operation>>): seq<Operation> {
    if nested == [] then [] else
      var i := |nested| - 1;
      ElementOps(nested[..i]) + NestAll([Decimal(i)], nested[i])
  }

  /** The indices from hi - 1 down to lo: a removal never moves an element that is still to be removed. */
  function Removals(lo: nat, hi: nat): seq<Operation> {
    if hi <= lo then [] else [RemoveOp([Decimal(hi - 1)])] + Removals(lo, hi - 1)
  }

  function Appends(x: seq<Json>): seq<Operation> {
    if x == [] then [] else [AddOp(["-"], x[0])] + Appends(x[1..])
  }

  /** One member of the source: changed by its own patch, or removed. */
  function MemberOp(nested: map<string, seq<Operation>>, key: string): seq<Operation> {
    if key in nested then NestAll([key], nested[key]) else [RemoveOp([key])]
  }

  function MemberOps(nested: map<string, seq<Operation>>, keys: seq<string>): seq<Operation> {
    if keys == [] then [] else
      MemberOps(nested, keys[..|keys| - 1]) + MemberOp(nested, keys[|keys| - 1])
  }

  /** Those of these members of the target that the source lacks. */
  function NewMembers(mine: set<string>, n: map<string, Json>, keys: seq<string>): seq<Operation>
    requires forall k :: k in keys ==> k in n
  {
    if keys == [] then [] else
      var key := keys[|keys| - 1];
      NewMembers(mine, n, keys[..|keys| - 1]) + if key in mine then [] else [AddOp([key], n[key])]
  }

  // ----- diff as it runs -----

  /** One more token on the path string is one more token on every operation. */
  lemma {:induction false} EncodeNested(path: string, token: string, ops: seq<Operation>)
    ensures EncodeAll(path + PointerString([token]), ops) == EncodeAll(path, NestAll([token], ops))
  {
    if ops != [] {
      var op := ops[0];
      PointerStringConcat([token], op.path);
      assert path + PointerString([token]) + PointerString(op.path) == path + PointerString([token] + op.path);
      EncodeNested(path, token, ops[1..]);
    }
  }

  lemma {:induction false} AppendsExtend(x: seq<Json>, v: Json)
    ensures Appends(x + [v]) == Appends(x) + [AddOp(["-"], v)]
  {
    if x == [] {
      assert x + [v] == [v];
    } else {
      assert (x + [v])[1..] == x[1..] + [v];
      AppendsExtend(x[1..], v);
    }
  }

  lemma EncodeOne(path: string, token: string, text: string, op: Operation)
    requires op.path == [token] && text == Escape(token)
    requires op.AddOp? || op.RemoveOp?
    ensures EncodeAll(path, [op]) == [Document(path + "/" + text, "", op)]
  {
    assert [token][1..] == [];
    assert path + "/" + text == path + PointerString([token]);
  }

  lemma EncodeDeeper(path: string, token: string, text: string, ops: seq<Operation>)
    requires text == Escape(token)
    ensures EncodeAll(path + "/" + text, ops) == EncodeAll(path, NestAll([token], ops))
  {
    assert [token][1..] == [];
    assert path + "/" + text == path + PointerString([token]);
    EncodeNested(path, token, ops);
  }

  lemma ElementStep(path: string, nested: seq<seq<Operation>>, i: nat)
    requires i < |nested|
    ensures EncodeAll(path, ElementOps(nested[..i + 1])) ==
      EncodeAll(path, ElementOps(nested[..i])) + EncodeAll(path + "/" + Decimal(i), nested[i])
  {
    assert nested[..i + 1][..i] == nested[..i];
    EscapeDecimal(i);
    EncodeDeeper(path, Decimal(i), Decimal(i), nested[i]);
    EncodeAllConcat(path, ElementOps(nested[..i]), NestAll([Decimal(i)], nested[i]));
  }

  lemma RemovalStep(path: string, lo: nat, i: nat)
    requires lo <= i
    ensures EncodeAll(path, Removals(lo, i + 1)) ==
      [Document(path + "/" + Decimal(i), "", RemoveOp([Decimal(i)]))] + EncodeAll(path, Removals(lo, i))
  {
    EscapeDecimal(i);
    EncodeOne(path, Decimal(i), Decimal(i), RemoveOp([Decimal(i)]));
    EncodeAllConcat(path, [RemoveOp([Decimal(i)])], Removals(lo, i));
  }

  lemma AppendStep(path: string, x: seq<Json>, v: Json)
    ensures EncodeAll(path, Appends(x + [v])) ==
      EncodeAll(path, Appends(x)) + [Document(path + "/" + "-", "", AddOp(["-"], v))]
  {
    EscapeIsEscaped("-");
    EscapeClean("-");
    EncodeOne(path, "-", "-", AddOp(["-"], v));
    AppendsExtend(x, v);
    EncodeAllConcat(path, Appends(x), [AddOp(["-"], v)]);
  }

  lemma MemberStep(path: string, nested: map<string, seq<Operation>>, keys: seq<string>, i: nat)
    requires i < |keys|
    ensures var key := keys[i];
      EncodeAll(path, MemberOps(nested, keys[..i + 1])) == EncodeAll(path, MemberOps(nested, keys[..i])) +
      if key in nested then EncodeAll(path + "/" + Escape(key), nested[key])
      else [Document(path + "/" + Escape(key), "", RemoveOp([key]))]
  {
    var key := keys[i];
    assert keys[..i + 1][..i] == keys[..i];
    EncodeAllConcat(path, MemberOps(nested, keys[..i]), MemberOp(nested, key));
    if key in nested {
      EncodeDeeper(path, key, Escape(key), nested[key]);
    } else {
      EncodeOne(path, key, Escape(key), RemoveOp([key]));
    }
  }

  lemma NewMemberStep(path: string, mine: set<string>, n: map<string, Json>, all: seq<string>, i: nat)
    requires (forall k :: k in all ==> k in n) && i < |all|
    ensures var key := all[i];
      EncodeAll(path, NewMembers(mine, n, all[..i + 1])) == EncodeAll(path, NewMembers(mine, n, all[..i])) +
      if key in mine then [] else [Document(path + "/" + Escape(key), "", AddOp([key], n[key]))]
  {
    var key, keys := all[i], all[..i];
    assert all[..i + 1][..i] == keys;
    if key !in mine {
      EncodeOne(path, key, Escape(key), AddOp([key], n[key]));
      EncodeAllConcat(path, NewMembers(mine, n, keys), [AddOp([key], n[key])]);
    } else {
      EncodeAllConcat(path, NewMembers(mine, n, keys), []);
    }
  }

  /** The first pass over two arrays: the common elements. */
  method DiffElements(source: Json, target: Json, path: string) returns (result: seq<Json>, i: nat)
    requires source.Array? && target.Array?
    ensures i == |ElementDiffs(source, target)|
    ensures result == EncodeAll(path, ElementOps(ElementDiffs(source, target)))
    decreases target, 0
  {
    var x, y := source.elements, target.elements;
    ghost var nested := ElementDiffs(source, target);
    result, i := [], 0;
    while i < |x| && i < |y|
      invariant i <= |nested|
      invariant result == EncodeAll(path, ElementOps(nested[..i]))
    {
      var inner := Diff(x[i], y[i], path + "/" + Decimal(i));
      ElementStep(path, nested, i);
      result := result + inner;
      i := i + 1;
    }
    assert nested[..i] == nested;
  }

  /** Each removal goes in front of the earlier ones, at the place where the list ended. */
  method DiffRemovals(before: seq<Json>, lo: nat, hi: nat, path: string) returns (result: seq<Json>)
    requires lo <= hi
    ensures result == before + EncodeAll(path, Removals(lo, hi))
  {
    result := before;
    var end, i := |result|, lo;
    ghost var removals: seq<Json> := [];
    while i < hi
      invariant lo <= i <= hi && end == |before|
      invariant removals == EncodeAll(path, Removals(lo, i)) && result == before + removals
    {
      RemovalStep(path, lo, i);
      var removal := Document(path + "/" + Decimal(i), "", RemoveOp([Decimal(i)]));
      assert result[..end] == before && result[end..] == removals;
      result := result[..end] + [removal] + result[end..];
      removals := [removal] + removals;
      i := i + 1;
    }
  }

  method DiffAppends(before: seq<Json>, y: seq<Json>, start: nat, path: string) returns (result: seq<Json>)
    requires start <= |y|
    ensures result == before + EncodeAll(path, Appends(y[start..]))
  {
    result := before;
    ghost var appends: seq<Json> := [];
    var i := start;
    while i < |y|
      invariant start <= i <= |y|
      invariant appends == EncodeAll(path, Appends(y[start..i])) && result == before + appends
    {
      AppendStep(path, y[start..i], y[i]);
      assert y[start..i + 1] == y[start..i] + [y[i]];
      var append := Document(path + "/" + "-", "", AddOp(["-"], y[i]));
      result := result + [append];
      appends := appends + [append];
      i := i + 1;
    }
    assert y[start..i] == y[start..];
  }

  method DiffArrays(source: Json, target: Json, path: string) returns (result: seq<Json>)
    requires source.Array? && target.Array? && !Eq(source, target)
    ensures result == EncodeAll(path, DiffOps(source, target))
    decreases target, 1
  {
    var x, y := source.elements, target.elements;
    var i;
    result, i := DiffElements(source, target, path);
    result := DiffRemovals(result, i, |x|, path);
    result := DiffAppends(result, y, i, path);
    ghost var common, removals := ElementOps(ElementDiffs(source, target)), Removals(i, |x|);
    EncodeAllConcat(path, common, removals);
    EncodeAllConcat(path, common + removals, Appends(y[i..]));
  }

  /** The first pass over two objects: the members of the source, in key order. */
  method DiffMembers(source: Json, target: Json, keys: seq<string>, path: string) returns (result: seq<Json>)
    requires source.Object? && target.Object? && forall k :: k in keys ==> k in source.members
    ensures result == EncodeAll(path, MemberOps(MemberDiffs(source, target), keys))
    decreases target, 0
  {
    var m, n := source.members, target.members;
    result := [];
    ghost var nested := MemberDiffs(source, target);
    for i := 0 to |keys|
      invariant result == EncodeAll(path, MemberOps(nested, keys[..i]))
    {
      var key := keys[i];
      MemberStep(path, nested, keys, i);
      if key in n {
        var inner := Diff(m[key], n[key], path + "/" + Escape(key));
        result := result + inner;
      } else {
        result := result + [Document(path + "/" + Escape(key), "", RemoveOp([key]))];
      }
    }
    assert keys[..|keys|] == keys;
  }

  /** The second pass: what only the target has. */
  method DiffNewMembers(m: map<string, Json>, n: map<string, Json>, keys: seq<string>, path: string)
    returns (result: seq<Json>)
    requires forall k :: k in keys ==> k in n
    ensures result == EncodeAll(path, NewMembers(m.Keys, n, keys))
  {
    result := [];
    for i := 0 to |keys|
      invariant result == EncodeAll(path, NewMembers(m.Keys, n, keys[..i]))
    {
      var key := keys[i];
      NewMemberStep(path, m.Keys, n, keys, i);
      if key !in m {
        result := result + [Document(path + "/" + Escape(key), "", AddOp([key], n[key]))];
      }
    }
    assert keys[..|keys|] == keys;
  }

  method DiffObjects(source: Json, target: Json, path: string) returns (result: seq<Json>)
    requires source.Object? && target.Object? && !Eq(source, target)
    ensures result == EncodeAll(path, DiffOps(source, target))
    decreases target, 1
  {
    var m, n := source.members, target.members;
    var mine, other := SortedKeys(m.Keys), SortedKeys(n.Keys);
    var first := DiffMembers(source, target, mine, path);
    var second := DiffNewMembers(m, n, other, path);
    result := first + second;
    EncodeAllConcat(path, MemberOps(MemberDiffs(source, target), mine), NewMembers(m.Keys, n, other));
  }

  method Diff(source: Json, target: Json, path: string) returns (result: seq<Json>)
    ensures result == EncodeAll(path, DiffOps(source, target))
    decreases target, 2
  {
    if Eq(source, target) {
      return [];
    }
    var replacement := Document(path, "", ReplaceOp([], target));
    assert path + PointerString([]) == path;
    assert EncodeAll(path, [ReplaceOp([], target)]) == [replacement];
    if TypeOf(source) != TypeOf(target) {
      return [replacement];
    }
    match source
    case Array(_) => result := DiffArrays(source, target, path);
    case Object(_) => result := DiffObjects(source, target, path);
    case _ => result := [replacement];
  }
}
