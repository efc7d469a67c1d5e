/** Applying a JSON patch (RFC 6902) to a value: basic_json::patch. */
module JsonPatch {
  import opened Wrappers
  import opened JsonValue
  import opened JsonPointer

  type Path = seq<string>
  type Outcome = Result<Json, Error>

  // ----- reaching into a value: at(ptr) and assignment through the reference it returns -----

  /** One step of get_checked. */
  function Child(j: Json, token: string): Outcome {
    match j
    case Object(m) => if token in m then Ok(m[token]) else Err(OutOfRange(403))
    case Array(x) =>
      if token == "-" then Err(OutOfRange(402)) else
        var i :- ArrayIndex(token);
        if i < |x| then Ok(x[i]) else Err(OutOfRange(401))
    case _ => Err(OutOfRange(404))
  }

  function SetChild(j: Json, token: string, v: Json): Json
    requires Child(j, token).Ok?
  {
    match j
    case Object(m) => Object(m[token := v])
    case Array(x) => Array(x[ArrayIndex(token).value := v])
  }

  function At(j: Json, path: Path): Outcome {
    if path == [] then Ok(j) else
      var child :- Child(j, path[0]);
      At(child, path[1..])
  }

  function Put(j: Json, path: Path, v: Json): Json
    requires At(j, path).Ok?
    decreases path
  {
    if path == [] then v
    else SetChild(j, path[0], Put(Child(j, path[0]).value, path[1..], v))
  }

  // ----- the three operations diff emits -----

  /** The last step of "add": into an object, or before an index of an array, or at its end. */
  function InsertChild(parent: Json, token: string, v: Json): Outcome {
    match parent
    case Null => Ok(Object(map[token := v]))
    case Object(m) => Ok(Object(m[token := v]))
    case Array(x) =>
      if token == "-" then Ok(Array(x + [v])) else
        var i :- ArrayIndex(token);
        if i > |x| then Err(OutOfRange(401)) else Ok(Array(x[..i] + [v] + x[i..]))
    case _ => Err(AssertionFailed)
  }

  function EraseChild(parent: Json, token: string): Outcome {
    match parent
    case Object(m) => if token in m then Ok(Object(m - {token})) else Err(OutOfRange(403))
    case Array(x) =>
      var i :- ArrayIndex(token);
      if i >= |x| then Err(OutOfRange(401)) else Ok(Array(x[..i] + x[i + 1..]))
    case _ => Ok(parent)
  }

  /** What get_unchecked turns a null into when a token has to be resolved in it. */
  function Container(token: string): Json {
    if token == "-" || forall c :: c in token ==> IsDigit(c) then Array([]) else Object(map[])
  }

  /** operator[] of an array beyond its end fills the gap with nulls. */
  function Filled(x: seq<Json>, i: nat): (y: seq<Json>)
    ensures i < |y|
  {
    if i < |x| then x else x + seq(i + 1 - |x|, _ => Null)
  }

  /** result[path] with the creation of missing parents, then InsertChild there. */
  function AddUnchecked(j: Json, path: Path, last: string, v: Json): Outcome
    decreases path
  {
    if path == [] then InsertChild(j, last, v) else
      match if j.Null? then Container(path[0]) else j
      case Object(m) =>
        var child :- AddUnchecked(if path[0] in m then m[path[0]] else Null, path[1..], last, v);
        Ok(Object(m[path[0] := child]))
      case Array(x) =>
        var i :- if path[0] == "-" then Ok(|x|) else ArrayIndex(path[0]);
        var y := Filled(x, i);
        var child :- AddUnchecked(y[i], path[1..], last, v);
        Ok(Array(y[i := child]))
      case _ => Err(OutOfRange(404))
  }

  function Add(j: Json, path: Path, v: Json): Outcome {
    if path == [] then Ok(v) else
      var _ :- if |path| > 1 then At(j, path[..1]) else Ok(j);
      AddUnchecked(j, path[..|path| - 1], path[|path| - 1], v)
  }

  function Remove(j: Json, path: Path): Outcome {
    if path == [] then Err(OutOfRange(405)) else
      var parent :- At(j, path[..|path| - 1]);
      var erased :- EraseChild(parent, path[|path| - 1]);
      Ok(Put(j, path[..|path| - 1], erased))
  }

  function Replace(j: Json, path: Path, v: Json): Outcome {
    var _ :- At(j, path);
    Ok(Put(j, path, v))
  }

  datatype Operation =
    | AddOp(path: Path, value: Json)
    | RemoveOp(path: Path)
    | ReplaceOp(path: Path, value: Json)
    | MoveOp(source: Path, path: Path)
    | CopyOp(source: Path, path: Path)
    | TestOp(path: Path, value: Json)

  function Apply(j: Json, op: Operation): Outcome {
    match op
    case AddOp(path, v) => Add(j, path, v)
    case RemoveOp(path) => Remove(j, path)
    case ReplaceOp(path, v) => Replace(j, path, v)
    case MoveOp(source, path) =>
      var v :- At(j, source);
      var removed :- Remove(j, source);
      Add(removed, path, v)
    case CopyOp(source, path) =>
      var v :- At(j, source);
      Add(j, path, v)
    case TestOp(path, v) =>
      match At(j, path)
      case Ok(found) => if Eq(found, v) then Ok(j) else Err(OtherError(501))
      case Err(OutOfRange(_)) => Err(OtherError(501))
      case Err(e) => Err(e)
  }

  function ApplyAll(j: Json, ops: seq<Operation>): Outcome
    decreases |ops|
  {
    if ops == [] then Ok(j) else
      var next :- Apply(j, ops[0]);
      ApplyAll(next, ops[1..])
  }

  lemma {:induction false} ApplyAllConcat(j: Json, a: seq<Operation>, b: seq<Operation>)
    ensures ApplyAll(j, a + b) == if ApplyAll(j, a).Ok? then ApplyAll(ApplyAll(j, a).value, b) else ApplyAll(j, a)
    decreases |a|
  {
    if a == [] {
      assert a + b == b;
    } else {
      assert (a + b)[1..] == a[1..] + b;
      if Apply(j, a[0]).Ok? { ApplyAllConcat(Apply(j, a[0]).value, a[1..], b); }
    }
  }

  // ----- the patch document -----

  /** get_value: the member must be there, and be a string where one is asked for. */
  function Member(val: Json, name: string): Outcome
    requires val.Object?
  {
    if name in val.members then Ok(val.members[name]) else Err(ParseError(105))
  }

  function StringMember(val: Json, name: string): Result<string, Error>
    requires val.Object?
  {
    var m :- Member(val, name);
    if m.String? then Ok(m.text) else Err(ParseError(105))
  }

  function PointerMember(val: Json, name: string): Result<Path, Error>
    requires val.Object?
  {
    var s :- StringMember(val, name);
    Split(s)
  }

  /** One element of the patch array. */
  function Decode(val: Json): Result<Operation, Error> {
    if !val.Object? then Err(ParseError(104)) else
      var op :- StringMember(val, "op");
      var path :- PointerMember(val, "path");
      if op == "add" then
        var v :- Member(val, "value");
        Ok(AddOp(path, v))
      else if op == "remove" then Ok(RemoveOp(path))
      else if op == "replace" then
        var v :- Member(val, "value");
        Ok(ReplaceOp(path, v))
      else if op == "move" then
        var source :- PointerMember(val, "from");
        Ok(MoveOp(source, path))
      else if op == "copy" then
        var source :- PointerMember(val, "from");
        Ok(CopyOp(source, path))
      else if op == "test" then
        var v :- Member(val, "value");
        Ok(TestOp(path, v))
      else Err(ParseError(105))
  }

  /** The elements are decoded one at a time, each when its turn comes. */
  function PatchFrom(j: Json, vals: seq<Json>): Outcome
    decreases |vals|
  {
    if vals == [] then Ok(j) else
      var op :- Decode(vals[0]);
      var next :- Apply(j, op);
      PatchFrom(next, vals[1..])
  }

  function Patched(j: Json, patch: Json): Outcome {
    if patch.Array? then PatchFrom(j, patch.elements) else Err(ParseError(104))
  }

  /** basic_json::patch: the working copy is updated operation by operation. */
  method Patch(j: Json, patch: Json) returns (r: Outcome)
    ensures r == Patched(j, patch)
  {
    var result := j;
    if !patch.Array? { return Err(ParseError(104)); }
    var vals := patch.elements;
    for i := 0 to |vals|
      invariant Patched(j, patch) == PatchFrom(result, vals[i..])
    {
      assert vals[i..][1..] == vals[i + 1..];
      var op := Decode(vals[i]);
      if op.Err? { return Err(op.error); }
      var next := Apply(result, op.value);
      if next.Err? { return next; }
      result := next.value;
    }
    return Ok(result);
  }

  function Name(op: Operation): string {
    match op
    case AddOp(_, _) => "add"
    case RemoveOp(_) => "remove"
    case ReplaceOp(_, _) => "replace"
    case MoveOp(_, _) => "move"
    case CopyOp(_, _) => "copy"
    case TestOp(_, _) => "test"
  }

  /** An operation as an element of a patch document, with its pointers written out. */
  function Document(path: string, source: string, op: Operation): Json {
    var common := map["op" := String(Name(op)), "path" := String(path)];
    match op
    case AddOp(_, v) => Object(common["value" := v])
    case RemoveOp(_) => Object(common)
    case ReplaceOp(_, v) => Object(common["value" := v])
    case MoveOp(_, _) => Object(common["from" := String(source)])
    case CopyOp(_, _) => Object(common["from" := String(source)])
    case TestOp(_, v) => Object(common["value" := v])
  }

  /** The document of an operation whose pointer is under the prefix string. */
  function Encode(prefix: string, op: Operation): Json {
    Document(prefix + PointerString(op.path), if op.MoveOp? || op.CopyOp? then PointerString(op.source) else "", op)
  }

  function EncodeAll(prefix: string, ops: seq<Operation>): seq<Json> {
    if ops == [] then [] else [Encode(prefix, ops[0])] + EncodeAll(prefix, ops[1..])
  }

  lemma {:induction false} EncodeAllConcat(prefix: string, a: seq<Operation>, b: seq<Operation>)
    ensures EncodeAll(prefix, a + b) == EncodeAll(prefix, a) + EncodeAll(prefix, b)
  {
    if a == [] {
      assert a + b == b;
    } else {
      assert (a + b)[1..] == a[1..] + b;
      EncodeAllConcat(prefix, a[1..], b);
    }
  }

  /** The operation moved under a prefix. */
  function Nest(prefix: Path, op: Operation): Operation {
    op.(path := prefix + op.path)
  }

  function NestAll(prefix: Path, ops: seq<Operation>): seq<Operation> {
    if ops == [] then [] else [Nest(prefix, ops[0])] + NestAll(prefix, ops[1..])
  }

  lemma DocumentMembers(path: string, source: string, op: Operation)
    ensures var val := Document(path, source, op);
      && val.Object?
      && StringMember(val, "op") == Ok(Name(op))
      && StringMember(val, "path") == Ok(path)
      && (op.AddOp? || op.ReplaceOp? || op.TestOp? ==> Member(val, "value") == Ok(op.value))
      && (op.MoveOp? || op.CopyOp? ==> StringMember(val, "from") == Ok(source))
  {}

  lemma NamesDiffer()
    ensures "add" != "remove" && "add" != "replace" && "add" != "move" && "add" != "copy" && "add" != "test"
    ensures "remove" != "replace" && "remove" != "move" && "remove" != "copy" && "remove" != "test"
    ensures "replace" != "move" && "replace" != "copy" && "replace" != "test"
    ensures "move" != "copy" && "move" != "test" && "copy" != "test"
  {
    assert "add"[0] == 'a' && "move"[0] == 'm' && "copy"[0] == 'c' && "test"[0] == 't';
    assert "remove"[0] == "replace"[0] == 'r' && "remove"[2] == 'm' && "replace"[2] == 'p';
  }

  /** Reading an operation's document gives the operation back. */
  lemma DecodeEncode(prefix: Path, op: Operation)
    ensures Decode(Encode(PointerString(prefix), op)) == Ok(Nest(prefix, op))
  {
    var path := PointerString(prefix) + PointerString(op.path);
    var source := if op.MoveOp? || op.CopyOp? then PointerString(op.source) else "";
    PointerStringConcat(prefix, op.path);
    PointerRoundTrip(prefix + op.path);
    if op.MoveOp? || op.CopyOp? { PointerRoundTrip(op.source); }
    DecodeDocument(path, source, prefix + op.path, op);
  }

  lemma DecodeDocument(path: string, source: string, p: Path, op: Operation)
    requires Split(path) == Ok(p)
    requires op.MoveOp? || op.CopyOp? ==> Split(source) == Ok(op.source)
    ensures Decode(Document(path, source, op)) == Ok(op.(path := p))
  {
    DocumentMembers(path, source, op);
    NamesDiffer();
  }

  lemma PatchFromCons(j: Json, val: Json, rest: seq<Json>, op: Operation)
    requires Decode(val) == Ok(op)
    ensures PatchFrom(j, [val] + rest) == if Apply(j, op).Ok? then PatchFrom(Apply(j, op).value, rest) else Apply(j, op)
  {
    assert ([val] + rest)[1..] == rest;
  }

  lemma ApplyAllCons(j: Json, op: Operation, rest: seq<Operation>)
    ensures ApplyAll(j, [op] + rest) == if Apply(j, op).Ok? then ApplyAll(Apply(j, op).value, rest) else Apply(j, op)
  {
    assert ([op] + rest)[1..] == rest;
  }

  /** A patch document does what the operations it encodes do. */
  lemma {:induction false} PatchFromEncoded(j: Json, prefix: Path, ops: seq<Operation>)
    ensures PatchFrom(j, EncodeAll(PointerString(prefix), ops)) == ApplyAll(j, NestAll(prefix, ops))
    decreases |ops|
  {
    if ops != [] {
      var val, op := Encode(PointerString(prefix), ops[0]), Nest(prefix, ops[0]);
      DecodeEncode(prefix, ops[0]);
      PatchFromCons(j, val, EncodeAll(PointerString(prefix), ops[1..]), op);
      ApplyAllCons(j, op, NestAll(prefix, ops[1..]));
      var next := Apply(j, op);
      if next.Ok? { PatchFromEncoded(next.value, prefix, ops[1..]); }
    }
  }

  // ----- laws of At and Put -----

  lemma {:induction false} AtConcat(j: Json, p: Path, q: Path)
    ensures At(j, p + q) == if At(j, p).Ok? then At(At(j, p).value, q) else At(j, p)
  {
    if p == [] {
      assert p + q == q;
    } else {
      assert (p + q)[1..] == p[1..] + q;
      if Child(j, p[0]).Ok? { AtConcat(Child(j, p[0]).value, p[1..], q); }
    }
  }

  lemma {:induction false} PutConcat(j: Json, p: Path, q: Path, v: Json)
    requires At(j, p).Ok? && At(j, p + q).Ok? && At(At(j, p).value, q).Ok?
    ensures Put(j, p + q, v) == Put(j, p, Put(At(j, p).value, q, v))
  {
    if p == [] {
      assert p + q == q;
    } else {
      assert (p + q)[1..] == p[1..] + q;
      PutConcat(Child(j, p[0]).value, p[1..], q, v);
    }
  }

  lemma ChildSetChild(j: Json, token: string, other: string, v: Json)
    requires Child(j, token).Ok?
    ensures Child(SetChild(j, token, v), token) == Ok(v)
    ensures other != token ==> Child(SetChild(j, token, v), other) == Child(j, other)
  {
    if j.Array? && other != token && ArrayIndex(other) == ArrayIndex(token) {
      IndexInjective(token, other);
    }
  }

  lemma {:induction false} AtPut(j: Json, p: Path, v: Json)
    requires At(j, p).Ok?
    ensures At(Put(j, p, v), p) == Ok(v)
  {
    if p != [] {
      AtPut(Child(j, p[0]).value, p[1..], v);
      ChildSetChild(j, p[0], p[0], Put(Child(j, p[0]).value, p[1..], v));
    }
  }

  lemma SetChildTwice(j: Json, token: string, v: Json, w: Json)
    requires Child(j, token).Ok? && Child(SetChild(j, token, v), token).Ok?
    ensures SetChild(SetChild(j, token, v), token, w) == SetChild(j, token, w)
    ensures SetChild(j, token, Child(j, token).value) == j
  {}

  lemma {:induction false} PutPut(j: Json, p: Path, v: Json, w: Json)
    requires At(j, p).Ok? && At(Put(j, p, v), p).Ok?
    ensures Put(Put(j, p, v), p, w) == Put(j, p, w)
  {
    if p != [] {
      var child := Child(j, p[0]).value;
      var inner := Put(child, p[1..], v);
      ChildSetChild(j, p[0], p[0], inner);
      PutPut(child, p[1..], v, w);
      SetChildTwice(j, p[0], inner, Put(child, p[1..], w));
    }
  }

  lemma {:induction false} PutSame(j: Json, p: Path)
    requires At(j, p).Ok?
    ensures Put(j, p, At(j, p).value) == j
  {
    if p != [] {
      PutSame(Child(j, p[0]).value, p[1..]);
      ChildSetChild(j, p[0], p[0], Child(j, p[0]).value);
      SetChildTwice(j, p[0], Child(j, p[0]).value, Null);
    }
  }

  /** Neither pointer leads to or through the other. */
  predicate Apart(p: Path, q: Path) {
    p != [] && q != [] && (p[0] != q[0] || Apart(p[1..], q[1..]))
  }

  /** Putting at one place leaves every place apart from it alone. */
  lemma {:induction false} PutFrames(j: Json, p: Path, v: Json, q: Path)
    requires At(j, p).Ok? && Apart(p, q)
    ensures At(Put(j, p, v), q) == At(j, q)
  {
    var child := Child(j, p[0]).value;
    ChildSetChild(j, p[0], q[0], Put(child, p[1..], v));
    if p[0] == q[0] { PutFrames(child, p[1..], v, q[1..]); }
  }

  // ----- operations below a place act on the value at that place only -----

  lemma {:induction false} AddUncheckedBelow(j: Json, p: Path, q: Path, last: string, v: Json)
    requires At(j, p).Ok? && AddUnchecked(At(j, p).value, q, last, v).Ok?
    ensures AddUnchecked(j, p + q, last, v) == Ok(Put(j, p, AddUnchecked(At(j, p).value, q, last, v).value))
    decreases p
  {
    if p == [] {
      assert p + q == q;
    } else {
      assert (p + q)[1..] == p[1..] + q;
      AddUncheckedBelow(Child(j, p[0]).value, p[1..], q, last, v);
    }
  }

  /** An operation diff emits, seen from the value it is about. */
  predicate Local(op: Operation) {
    op.ReplaceOp? || ((op.AddOp? || op.RemoveOp?) && op.path != [])
  }

  lemma AddBelow(j: Json, p: Path, q: Path, v: Json)
    requires At(j, p).Ok? && q != [] && Add(At(j, p).value, q, v).Ok?
    ensures Add(j, p + q, v) == Ok(Put(j, p, Add(At(j, p).value, q, v).value))
  {
    var n := |q| - 1;
    assert (p + q)[..|p + q| - 1] == p + q[..n] && (p + q)[|p + q| - 1] == q[n];
    AddUncheckedBelow(j, p, q[..n], q[n], v);
    if p == [] {
      assert p + q == q;
    } else {
      assert p == p[..1] + p[1..] && (p + q)[..1] == p[..1];
      AtConcat(j, p[..1], p[1..]);
    }
  }

  lemma RemoveBelow(j: Json, p: Path, q: Path)
    requires At(j, p).Ok? && Remove(At(j, p).value, q).Ok?
    ensures Remove(j, p + q) == Ok(Put(j, p, Remove(At(j, p).value, q).value))
  {
    var n := |q| - 1;
    assert (p + q)[..|p + q| - 1] == p + q[..n] && (p + q)[|p + q| - 1] == q[n];
    AtConcat(j, p, q[..n]);
    PutConcat(j, p, q[..n], EraseChild(At(j, p + q[..n]).value, q[n]).value);
  }

  lemma ApplyBelow(j: Json, p: Path, op: Operation)
    requires Local(op) && At(j, p).Ok? && Apply(At(j, p).value, op).Ok?
    ensures Apply(j, Nest(p, op)) == Ok(Put(j, p, Apply(At(j, p).value, op).value))
  {
    match op
    case AddOp(q, v) => AddBelow(j, p, q, v);
    case RemoveOp(q) => RemoveBelow(j, p, q);
    case ReplaceOp(q, v) =>
      AtConcat(j, p, q);
      PutConcat(j, p, q, v);
  }

  lemma {:induction false} ApplyAllBelow(j: Json, p: Path, ops: seq<Operation>)
    requires forall op :: op in ops ==> Local(op)
    requires At(j, p).Ok? && ApplyAll(At(j, p).value, ops).Ok?
    ensures ApplyAll(j, NestAll(p, ops)) == Ok(Put(j, p, ApplyAll(At(j, p).value, ops).value))
    decreases |ops|
  {
    if ops == [] {
      PutSame(j, p);
    } else {
      var here := Apply(At(j, p).value, ops[0]).value;
      ApplyBelow(j, p, ops[0]);
      var next := Put(j, p, here);
      AtPut(j, p, here);
      ApplyAllBelow(next, p, ops[1..]);
      PutPut(j, p, here, ApplyAll(here, ops[1..]).value);
    }
  }
}
