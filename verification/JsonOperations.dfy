/** What the operations of a JSON patch do, told place by place (section 4 of RFC 6902). */
module JsonOperations {
  import opened Wrappers
  import opened JsonValue
  import opened JsonPointer
  import opened JsonPatch

  /** An operation as a patch document of its own. */
  function Single(op: Operation): Json {
    Encode("", op)
  }

  lemma SingleDecodes(op: Operation)
    ensures Decode(Single(op)) == Ok(op)
  {
    DecodeEncode([], op);
    assert [] + op.path == op.path;
  }

  lemma PatchOne(j: Json, op: Operation)
    ensures PatchFrom(j, [Single(op)]) == Apply(j, op)
  {
    hide Apply, Decode, Single;
    SingleDecodes(op);
    PatchFromCons(j, Single(op), [], op);
    assert [Single(op)] + [] == [Single(op)];
  }

  lemma PatchTwo(j: Json, first: Operation, second: Operation)
    ensures PatchFrom(j, [Single(first), Single(second)]) ==
      if Apply(j, first).Ok? then Apply(Apply(j, first).value, second) else Apply(j, first)
  {
    hide Apply, Decode, Single;
    SingleDecodes(first);
    PatchFromCons(j, Single(first), [Single(second)], first);
    assert [Single(first)] + [Single(second)] == [Single(first), Single(second)];
    if Apply(j, first).Ok? {
      PatchOne(Apply(j, first).value, second);
    }
  }

  // ----- operations made of others -----

  /** "move" is "remove", then "add" of what was there. */
  lemma MoveIsTwoSteps(j: Json, source: Path, path: Path)
    ensures At(j, source).Ok? ==>
      PatchFrom(j, [Single(MoveOp(source, path))]) ==
      PatchFrom(j, [Single(RemoveOp(source)), Single(AddOp(path, At(j, source).value))])
    ensures At(j, source).Err? ==> PatchFrom(j, [Single(MoveOp(source, path))]) == At(j, source)
  {
    PatchOne(j, MoveOp(source, path));
    if At(j, source).Ok? {
      PatchTwo(j, RemoveOp(source), AddOp(path, At(j, source).value));
    }
  }

  /** "copy" is "add" of what is there. */
  lemma CopyIsAdd(j: Json, source: Path, path: Path)
    ensures At(j, source).Ok? ==>
      PatchFrom(j, [Single(CopyOp(source, path))]) == PatchFrom(j, [Single(AddOp(path, At(j, source).value))])
    ensures At(j, source).Err? ==> PatchFrom(j, [Single(CopyOp(source, path))]) == At(j, source)
  {
    PatchOne(j, CopyOp(source, path));
    if At(j, source).Ok? {
      PatchOne(j, AddOp(path, At(j, source).value));
    }
  }

  /** "test" never changes the document; it succeeds exactly if the value is there and equal. */
  lemma TestDecides(j: Json, path: Path, v: Json)
    ensures var r := PatchFrom(j, [Single(TestOp(path, v))]);
      && (r.Ok? <==> At(j, path).Ok? && Eq(At(j, path).value, v))
      && (r.Ok? ==> r.value == j)
      && (r.Err? && (At(j, path).Ok? || At(j, path).error.OutOfRange?) ==> r.error == OtherError(501))
      && (At(j, path).Err? && !At(j, path).error.OutOfRange? ==> r == At(j, path))
  {
    PatchOne(j, TestOp(path, v));
  }

  /** "replace" is "remove" and "add" at the same place of an object. */
  lemma ReplaceIsTwoSteps(j: Json, path: Path, key: string, v: Json)
    requires At(j, path).Ok? && At(j, path).value.Object? && key in At(j, path).value.members
    ensures var place := path + [key];
      PatchFrom(j, [Single(ReplaceOp(place, v))]) == PatchFrom(j, [Single(RemoveOp(place)), Single(AddOp(place, v))])
  {
    hide Add, Remove, Replace, Single;
    var place := path + [key];
    PatchOne(j, ReplaceOp(place, v));
    PatchTwo(j, RemoveOp(place), AddOp(place, v));
    ReplacedMember(j, path, key, v);
    RemoveMember(j, path, key);
    var m, removed := At(j, path).value.members, Remove(j, place).value;
    AddMember(removed, path, key, v);
    PutPut(j, path, Object(m - {key}), Object((m - {key})[key := v]));
    assert (m - {key})[key := v] == m[key := v];
  }

  lemma ReplacedMember(j: Json, path: Path, key: string, v: Json)
    requires At(j, path).Ok? && At(j, path).value.Object? && key in At(j, path).value.members
    ensures Replace(j, path + [key], v) == Ok(Put(j, path, Object(At(j, path).value.members[key := v])))
  {
    var parent := At(j, path).value;
    AtConcat(j, path, [key]);
    AtOne(parent, key);
    PutConcat(j, path, [key], v);
    assert [key][1..] == [];
    assert Put(parent, [key], v) == SetChild(parent, key, v);
  }

  lemma AtOne(j: Json, token: string)
    ensures At(j, [token]) == Child(j, token)
  {
    assert [token][1..] == [];
  }

  // ----- places in objects and arrays -----

  /** Everything apart from this place is as it was. */
  ghost predicate ElsewhereSame(j: Json, r: Json, p: Path) {
    forall q: Path :: Apart(p, q) ==> At(r, q) == At(j, q)
  }

  lemma PutElsewhere(j: Json, p: Path, v: Json)
    requires At(j, p).Ok?
    ensures ElsewhereSame(j, Put(j, p, v), p)
  {
    forall q: Path | Apart(p, q)
      ensures At(Put(j, p, v), q) == At(j, q)
    {
      PutFrames(j, p, v, q);
    }
  }

  /** A member of an object is set, or is a new one. */
  lemma AddMember(j: Json, p: Path, key: string, v: Json)
    requires At(j, p).Ok? && At(j, p).value.Object?
    ensures var m, r := At(j, p).value.members, Add(j, p + [key], v);
      r == Ok(Put(j, p, Object(m[key := v]))) && At(r.value, p) == Ok(Object(m[key := v])) &&
        ElsewhereSame(j, r.value, p)
  {
    var m := At(j, p).value.members;
    assert [key][..0] == [];
    AddBelow(j, p, [key], v);
    AtPut(j, p, Object(m[key := v]));
    PutElsewhere(j, p, Object(m[key := v]));
  }

  /** Before an element of an array or behind the last one: the later ones move up by one. */
  predicate Inserted(x: seq<Json>, i: nat, v: Json, y: seq<Json>) {
    && i <= |x| && |y| == |x| + 1 && y[i] == v
    && (forall k :: 0 <= k < i ==> y[k] == x[k]) && (forall k :: i <= k < |x| ==> y[k + 1] == x[k])
  }

  lemma AddElement(j: Json, p: Path, token: string, i: nat, v: Json)
    requires At(j, p).Ok? && At(j, p).value.Array? && i <= |At(j, p).value.elements|
    requires if token == "-" then i == |At(j, p).value.elements| else ArrayIndex(token) == Ok(i)
    ensures var x, r := At(j, p).value.elements, Add(j, p + [token], v);
      r.Ok? && At(r.value, p).Ok? && At(r.value, p).value.Array? && Inserted(x, i, v, At(r.value, p).value.elements) &&
      r.value == Put(j, p, At(r.value, p).value) && ElsewhereSame(j, r.value, p)
  {
    hide Inserted;
    var x := At(j, p).value.elements;
    var y := x[..i] + [v] + x[i..];
    assert [token][..0] == [];
    InsertedHere(x, i, v);
    assert Add(Array(x), [token], v) == Ok(Array(y));
    AddBelow(j, p, [token], v);
    AtPut(j, p, Array(y));
    PutElsewhere(j, p, Array(y));
  }

  lemma InsertedHere(x: seq<Json>, i: nat, v: Json)
    requires i <= |x|
    ensures Inserted(x, i, v, x[..i] + [v] + x[i..])
    ensures i == |x| ==> x[..i] + [v] + x[i..] == x + [v]
  {}

  lemma RemoveMember(j: Json, p: Path, key: string)
    requires At(j, p).Ok? && At(j, p).value.Object? && key in At(j, p).value.members
    ensures var m, r := At(j, p).value.members, Remove(j, p + [key]);
      r == Ok(Put(j, p, Object(m - {key}))) && At(r.value, p) == Ok(Object(m - {key})) && ElsewhereSame(j, r.value, p)
    ensures At(Remove(j, p + [key]).value, p + [key]).Err?
  {
    var m := At(j, p).value.members;
    assert (p + [key])[..|p + [key]| - 1] == p;
    AtPut(j, p, Object(m - {key}));
    PutElsewhere(j, p, Object(m - {key}));
    AtConcat(Put(j, p, Object(m - {key})), p, [key]);
  }

  /** The later elements move down by one. */
  lemma RemoveElement(j: Json, p: Path, token: string, i: nat)
    requires At(j, p).Ok? && At(j, p).value.Array? && i < |At(j, p).value.elements| && ArrayIndex(token) == Ok(i)
    ensures var x, r := At(j, p).value.elements, Remove(j, p + [token]);
      r.Ok? && At(r.value, p).Ok? && At(r.value, p).value.Array? &&
      Inserted(At(r.value, p).value.elements, i, x[i], x) &&
      r.value == Put(j, p, At(r.value, p).value) && ElsewhereSame(j, r.value, p)
  {
    hide Inserted;
    var x := At(j, p).value.elements;
    var y := x[..i] + x[i + 1..];
    RemovedHere(x, i);
    assert (p + [token])[..|p + [token]| - 1] == p;
    AtPut(j, p, Array(y));
    PutElsewhere(j, p, Array(y));
  }

  lemma RemovedHere(x: seq<Json>, i: nat)
    requires i < |x|
    ensures Inserted(x[..i] + x[i + 1..], i, x[i], x)
  {}

  lemma InsertedUnique(x: seq<Json>, y: seq<Json>, i: nat, v: Json, w: Json, z: seq<Json>)
    requires Inserted(x, i, v, z) && Inserted(y, i, w, z)
    ensures x == y && v == w
  {
    forall k | 0 <= k < |x|
      ensures x[k] == y[k]
    {
      if k >= i {
        assert z[k + 1] == x[k] == y[k];
      }
    }
  }

  /** Removing what was added gives the document back. */
  lemma AddThenRemove(j: Json, p: Path, token: string, v: Json)
    requires At(j, p).Ok?
    requires match At(j, p).value
      case Object(m) => token !in m
      case Array(x) => ArrayIndex(token).Ok? && ArrayIndex(token).value <= |x|
      case _ => false
    ensures Add(j, p + [token], v).Ok? && Remove(Add(j, p + [token], v).value, p + [token]) == Ok(j)
  {
    var parent := At(j, p).value;
    PutSame(j, p);
    if parent.Object? {
      var m := parent.members;
      AddMember(j, p, token, v);
      var added := Add(j, p + [token], v).value;
      RemoveMember(added, p, token);
      PutPut(j, p, Object(m[token := v]), Object(m[token := v] - {token}));
      assert m[token := v] - {token} == m;
    } else {
      var i := ArrayIndex(token).value;
      NotDash(token);
      AddElement(j, p, token, i, v);
      var added := Add(j, p + [token], v).value;
      var y := At(added, p).value.elements;
      RemoveElement(added, p, token, i);
      var removed := Remove(added, p + [token]).value;
      InsertedUnique(parent.elements, At(removed, p).value.elements, i, v, y[i], y);
      PutPut(j, p, Array(y), parent);
    }
  }

  lemma NotDash(token: string)
    requires ArrayIndex(token).Ok?
    ensures token != "-"
  {}

  /** Adding what was removed gives the document back. */
  lemma RemoveThenAdd(j: Json, p: Path, token: string)
    requires At(j, p).Ok? && (At(j, p).value.Object? || At(j, p).value.Array?) && Child(At(j, p).value, token).Ok?
    ensures At(j, p + [token]) == Child(At(j, p).value, token)
    ensures Remove(j, p + [token]).Ok?
    ensures Add(Remove(j, p + [token]).value, p + [token], At(j, p + [token]).value) == Ok(j)
  {
    var parent, v := At(j, p).value, Child(At(j, p).value, token).value;
    AtConcat(j, p, [token]);
    AtOne(parent, token);
    PutSame(j, p);
    if parent.Object? {
      var m := parent.members;
      RemoveMember(j, p, token);
      var removed := Remove(j, p + [token]).value;
      AddMember(removed, p, token, v);
      PutPut(j, p, Object(m - {token}), Object((m - {token})[token := v]));
      assert (m - {token})[token := v] == m;
    } else {
      var i := ArrayIndex(token).value;
      RemoveElement(j, p, token, i);
      var removed := Remove(j, p + [token]).value;
      var y := At(removed, p).value.elements;
      AddElement(removed, p, token, i, v);
      var z := At(Add(removed, p + [token], v).value, p).value.elements;
      InsertedOne(y, i, v, parent.elements, z);
      PutPut(j, p, Array(y), parent);
    }
  }

  lemma InsertedOne(x: seq<Json>, i: nat, v: Json, y: seq<Json>, z: seq<Json>)
    requires Inserted(x, i, v, y) && Inserted(x, i, v, z)
    ensures y == z
  {
    forall k | 0 <= k < |y|
      ensures y[k] == z[k]
    {
      if k > i {
        assert y[k - 1 + 1] == x[k - 1];
      }
    }
  }

  /** Moving a value onto its own place changes nothing. */
  lemma MoveToItself(j: Json, p: Path, token: string)
    requires At(j, p).Ok? && (At(j, p).value.Object? || At(j, p).value.Array?) && Child(At(j, p).value, token).Ok?
    ensures Apply(j, MoveOp(p + [token], p + [token])) == Ok(j)
  {
    RemoveThenAdd(j, p, token);
  }

  // ----- any place -----

  /** The place is one in an array, where adding and removing moves other elements. */
  predicate InArray(j: Json, p: Path)
    requires p != []
  {
    At(j, p[..|p| - 1]).Ok? && At(j, p[..|p| - 1]).value.Array?
  }

  lemma {:induction false} AddUncheckedThenAt(j: Json, path: Path, last: string, v: Json)
    requires AddUnchecked(j, path, last, v).Ok? && "-" !in path && last != "-"
    ensures At(AddUnchecked(j, path, last, v).value, path + [last]) == Ok(v)
    decreases path
  {
    hide ArrayIndex;
    var r := AddUnchecked(j, path, last, v).value;
    if path == [] {
      AtOne(r, last);
      assert path + [last] == [last];
    } else {
      var container := if j.Null? then Container(path[0]) else j;
      assert (path + [last])[1..] == path[1..] + [last];
      if container.Object? {
        var inner := if path[0] in container.members then container.members[path[0]] else Null;
        AddUncheckedThenAt(inner, path[1..], last, v);
      } else {
        var i := ArrayIndex(path[0]).value;
        AddUncheckedThenAt(Filled(container.elements, i)[i], path[1..], last, v);
      }
    }
  }

  /** What was added is found at its place, even if parents were created on the way. */
  lemma AddThenAt(j: Json, p: Path, v: Json)
    requires Add(j, p, v).Ok? && "-" !in p
    ensures At(Add(j, p, v).value, p) == Ok(v)
  {
    if p != [] {
      var path, last := p[..|p| - 1], p[|p| - 1];
      assert p == path + [last];
      AddUncheckedThenAt(j, path, last, v);
    }
  }

  predicate IndexLike(token: string) {
    token == "-" || forall c :: c in token ==> IsDigit(c)
  }

  function Nulls(n: nat): seq<Json> {
    seq(n, _ => Null)
  }

  /** A null on the way becomes an object, or an array if the next token looks like an index. */
  lemma AddCreates(name: string, token: string, n: nat, key: string, v: Json)
    requires n < SIZE_MAX && !IndexLike(token)
    ensures var j, member := Object(map[name := Null]), Object(map[key := v]);
      && Add(j, [name, token, key], v) == Ok(Object(map[name := Object(map[token := member])]))
      && Add(j, [name, Decimal(n), key], v) == Ok(Object(map[name := Array(Nulls(n) + [member])]))
  {
    hide Add, AddUnchecked;
    var j := Object(map[name := Null]);
    AtOne(j, name);
    CreateUnder(j, name, token, key, v);
    CreateUnder(j, name, Decimal(n), key, v);
    CreateObject(token, key, v);
    CreateArray(n, key, v);
    SetOnly(name, Object(map[token := Object(map[key := v])]));
    SetOnly(name, Array(Nulls(n) + [Object(map[key := v])]));
  }

  lemma SetOnly(name: string, v: Json)
    ensures map[name := Null][name := v] == map[name := v]
  {}

  lemma CreateMember(key: string, v: Json)
    ensures AddUnchecked(Null, [], key, v) == Ok(Object(map[key := v]))
  {}

  lemma CreateObject(token: string, key: string, v: Json)
    requires !IndexLike(token)
    ensures AddUnchecked(Null, [token], key, v) == Ok(Object(map[token := Object(map[key := v])]))
  {
    CreateMember(key, v);
    assert [token][1..] == [];
  }

  lemma CreateArray(n: nat, key: string, v: Json)
    requires n < SIZE_MAX
    ensures AddUnchecked(Null, [Decimal(n)], key, v) == Ok(Array(Nulls(n) + [Object(map[key := v])]))
  {
    CreateMember(key, v);
    IndexRoundTrip(n);
    NotDash(Decimal(n));
    assert [Decimal(n)][1..] == [];
    var filled := Filled([], n);
    assert filled == Nulls(n + 1);
    assert filled[n := Object(map[key := v])] == Nulls(n) + [Object(map[key := v])];
  }

  lemma CreateUnder(j: Json, name: string, token: string, key: string, v: Json)
    requires At(j, [name]) == Ok(Null) && j.Object?
    ensures var created := AddUnchecked(Null, [token], key, v);
      Add(j, [name, token, key], v) == if created.Ok? then Ok(Object(j.members[name := created.value])) else created
  {
    var path := [name, token, key];
    assert path[..1] == [name] && path[..2] == [name, token] && path[..2][1..] == [token];
    AtOne(j, name);
  }

  lemma {:induction false} AddUncheckedFrames(j: Json, path: Path, last: string, v: Json, q: Path)
    requires AddUnchecked(j, path, last, v).Ok? && Apart(path + [last], q) && At(j, q).Ok?
    requires !InArray(j, path + [last])
    ensures At(AddUnchecked(j, path, last, v).value, q) == At(j, q)
    decreases path
  {
    var p := path + [last];
    assert p[..|p| - 1] == path;
    if path != [] {
      var inner := p[1..];
      assert inner == path[1..] + [last] && inner[..|inner| - 1] == path[1..];
      assert path[0] == p[0];
      if path[0] == q[0] {
        AddUncheckedFrames(Child(j, q[0]).value, path[1..], last, v, q[1..]);
      } else if j.Array? && path[0] != "-" && ArrayIndex(path[0]) == ArrayIndex(q[0]) {
        IndexInjective(path[0], q[0]);
      }
    }
  }

  /** Adding leaves every place apart from it alone, unless it moves elements of an array. */
  lemma AddFrames(j: Json, p: Path, v: Json, q: Path)
    requires Add(j, p, v).Ok? && Apart(p, q) && At(j, q).Ok? && !InArray(j, p)
    ensures At(Add(j, p, v).value, q) == At(j, q)
  {
    var path, last := p[..|p| - 1], p[|p| - 1];
    assert p == path + [last];
    AddUncheckedFrames(j, path, last, v, q);
  }

  lemma {:induction false} AddUncheckedMissing(j: Json, path: Path, last: string, v: Json, q: Path)
    requires AddUnchecked(j, path, last, v).Ok? && Apart(path + [last], q)
    requires q != [] && At(j, q[..|q| - 1]).Ok? && At(j, q[..|q| - 1]).value.Object? && At(j, q).Err?
    requires !InArray(j, path + [last])
    ensures At(AddUnchecked(j, path, last, v).value, q).Err?
    decreases path
  {
    hide ArrayIndex;
    var p, init := path + [last], q[..|q| - 1];
    assert p[..|p| - 1] == path;
    if |q| == 1 {
      AtOne(j, q[0]);
      AtOne(AddUnchecked(j, path, last, v).value, q[0]);
    } else {
      assert init[1..] == q[1..][..|q| - 2] && init[0] == q[0];
      if path != [] {
        var inner := p[1..];
        assert inner == path[1..] + [last] && inner[..|inner| - 1] == path[1..];
        if path[0] == q[0] {
          AddUncheckedMissing(Child(j, q[0]).value, path[1..], last, v, q[1..]);
        } else if j.Array? && path[0] != "-" && ArrayIndex(path[0]) == ArrayIndex(q[0]) {
          IndexInjective(path[0], q[0]);
        }
      }
    }
  }

  /** A member that is missing elsewhere is missing still. */
  lemma AddMissing(j: Json, p: Path, v: Json, q: Path, key: string)
    requires Add(j, p, v).Ok? && Apart(p, q + [key]) && !InArray(j, p)
    requires At(j, q).Ok? && At(j, q).value.Object? && key !in At(j, q).value.members
    ensures At(Add(j, p, v).value, q + [key]).Err?
  {
    var path, last := p[..|p| - 1], p[|p| - 1];
    assert p == path + [last];
    assert (q + [key])[..|q + [key]| - 1] == q;
    AtConcat(j, q, [key]);
    AtOne(At(j, q).value, key);
    AddUncheckedMissing(j, path, last, v, q + [key]);
  }

  /** Removing a member leaves every place apart from it alone. */
  lemma {:induction false} RemoveFrames(j: Json, p: Path, key: string, q: Path)
    requires At(j, p).Ok? && At(j, p).value.Object? && key in At(j, p).value.members && Apart(p + [key], q)
    ensures At(Remove(j, p + [key]).value, q) == At(j, q)
    decreases p
  {
    var m := At(j, p).value.members;
    RemoveMember(j, p, key);
    if p == [] {
      assert q[0] != key;
    } else {
      var child, place := Child(j, p[0]).value, p + [key];
      assert place[1..] == p[1..] + [key];
      RemoveMember(child, p[1..], key);
      ChildSetChild(j, p[0], q[0], Put(child, p[1..], Object(m - {key})));
      if p[0] == q[0] {
        RemoveFrames(child, p[1..], key, q[1..]);
      }
    }
  }

  /** What was moved is at its new place and gone from the old one, and nothing else has changed. */
  lemma MovePlaces(j: Json, p: Path, key: string, path: Path, q: Path)
    requires At(j, p).Ok? && At(j, p).value.Object? && key in At(j, p).value.members
    requires Apart(p + [key], path) && "-" !in path && Apply(j, MoveOp(p + [key], path)).Ok?
    requires !InArray(Remove(j, p + [key]).value, path)
    ensures var r := Apply(j, MoveOp(p + [key], path)).value;
      && At(r, path) == At(j, p + [key]) == Ok(At(j, p).value.members[key])
      && At(r, p + [key]).Err?
      && (Apart(p + [key], q) && Apart(path, q) && At(j, q).Ok? ==> At(r, q) == At(j, q))
  {
    var v := At(j, p).value.members[key];
    AtConcat(j, p, [key]);
    AtOne(At(j, p).value, key);
    RemoveMember(j, p, key);
    var removed := Remove(j, p + [key]).value;
    AddThenAt(removed, path, v);
    ApartSymmetric(p + [key], path);
    AddMissing(removed, path, v, p, key);
    if Apart(p + [key], q) && Apart(path, q) && At(j, q).Ok? {
      RemoveFrames(j, p, key, q);
      AddFrames(removed, path, v, q);
    }
  }

  lemma {:induction false} ApartSymmetric(p: Path, q: Path)
    requires Apart(p, q)
    ensures Apart(q, p)
  {
    if p[0] == q[0] {
      ApartSymmetric(p[1..], q[1..]);
    }
  }

  /** What was copied is at both places, and nothing else has changed. */
  lemma CopyPlaces(j: Json, source: Path, path: Path, q: Path)
    requires Apply(j, CopyOp(source, path)).Ok? && "-" !in path
    ensures var r := Apply(j, CopyOp(source, path)).value;
      && At(j, source).Ok? && At(r, path) == At(j, source)
      && (Apart(path, q) && !InArray(j, path) && At(j, q).Ok? ==> At(r, q) == At(j, q))
      && (Apart(path, source) && !InArray(j, path) ==> At(r, source) == At(j, source))
  {
    var v := At(j, source).value;
    AddThenAt(j, path, v);
    if Apart(path, q) && !InArray(j, path) && At(j, q).Ok? {
      AddFrames(j, path, v, q);
    }
    if Apart(path, source) && !InArray(j, path) {
      AddFrames(j, path, v, source);
    }
  }

  /** Within one object, a move gives a member another name. */
  lemma MoveRenames(m: map<string, Json>, key: string, name: string)
    requires key in m
    ensures Apply(Object(m), MoveOp([key], [name])) == Ok(Object((m - {key})[name := m[key]]))
  {
    AtOne(Object(m), key);
    RemoveMember(Object(m), [], key);
    AddMember(Object(m - {key}), [], name, m[key]);
    assert [] + [key] == [key] && [] + [name] == [name];
  }

  // ----- errors -----

  /** What is not there cannot be removed, replaced, moved or copied, and does not pass a test. */
  lemma MissingMember(m: map<string, Json>, key: string, path: Path, v: Json)
    requires key !in m
    ensures Apply(Object(m), RemoveOp([key])) == Apply(Object(m), ReplaceOp([key], v)) == Err(OutOfRange(403))
    ensures Apply(Object(m), MoveOp([key], path)) == Apply(Object(m), CopyOp([key], path)) == Err(OutOfRange(403))
    ensures Apply(Object(m), TestOp([key], v)) == Err(OtherError(501))
  {
    AtOne(Object(m), key);
    assert [key][..0] == [];
  }

  lemma MissingElement(x: seq<Json>, i: nat, path: Path, v: Json)
    requires |x| <= i < SIZE_MAX
    ensures var place := [Decimal(i)];
      && Apply(Array(x), RemoveOp(place)) == Apply(Array(x), ReplaceOp(place, v)) == Err(OutOfRange(401))
      && Apply(Array(x), MoveOp(place, path)) == Apply(Array(x), CopyOp(place, path)) == Err(OutOfRange(401))
      && Apply(Array(x), TestOp(place, v)) == Err(OtherError(501))
      && (i > |x| ==> Apply(Array(x), AddOp(place, v)) == Err(OutOfRange(401)))
  {
    IndexRoundTrip(i);
    NotDash(Decimal(i));
    AtOne(Array(x), Decimal(i));
    assert [Decimal(i)][..0] == [];
  }

  /** There is nothing in a value that is no container, nothing behind the last element, and the root stays. */
  lemma NoPlace(j: Json, x: seq<Json>, token: string, last: string, v: Json)
    requires !j.Object? && !j.Array?
    ensures Apply(j, ReplaceOp([token], v)) == Err(OutOfRange(404))
    ensures Apply(j, RemoveOp([token])) == Ok(j)
    ensures Apply(j, AddOp([token, last], v)) == Err(OutOfRange(404))
    ensures !j.Null? ==> Apply(j, AddOp([token], v)) == Err(AssertionFailed)
    ensures Apply(Array(x), ReplaceOp(["-"], v)) == Err(OutOfRange(402))
    ensures Apply(j, RemoveOp([])) == Err(OutOfRange(405))
    ensures Apply(j, AddOp([], v)) == Apply(j, ReplaceOp([], v)) == Ok(v)
  {
    AtOne(j, token);
    AtOne(Array(x), "-");
    assert [token][..0] == [] && [token, last][..1] == [token];
  }

  /** The element of the patch array is an object with the members that the operation needs. */
  predicate Describes(val: Json, op: Operation) {
    && val.Object?
    && HasText(val, "op", Name(op)) && HasPointer(val, "path", op.path)
    && (op.AddOp? || op.ReplaceOp? || op.TestOp? ==> "value" in val.members && val.members["value"] == op.value)
    && (op.MoveOp? || op.CopyOp? ==> HasPointer(val, "from", op.source))
  }

  predicate HasText(val: Json, name: string, text: string)
    requires val.Object?
  {
    name in val.members && val.members[name] == String(text)
  }

  predicate HasPointer(val: Json, name: string, path: Path)
    requires val.Object?
  {
    name in val.members && val.members[name].String? && Split(val.members[name].text) == Ok(path)
  }

  /** An operation is read exactly from an object that describes it. */
  lemma DecodeDescribed(val: Json, op: Operation)
    ensures Decode(val) == Ok(op) <==> Describes(val, op)
  {
    hide Split;
    NamesDiffer();
  }

  /** What is no array of objects with a known operation each is no patch. */
  lemma NoPatch(j: Json, patch: Json, val: Json, rest: seq<Json>)
    requires !patch.Array?
    ensures Patched(j, patch) == Err(ParseError(104))
    ensures !val.Object? ==> Patched(j, Array([val] + rest)) == Err(ParseError(104))
    ensures val.Object? && ("op" !in val.members || !val.members["op"].String?) ==>
      Patched(j, Array([val] + rest)) == Err(ParseError(105))
  {
    assert ([val] + rest)[0] == val;
  }
}
