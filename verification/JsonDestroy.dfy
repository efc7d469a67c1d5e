/** Destroying a tree of values without deep recursion: json_value::destroy. */
module JsonDestroy {
  import opened StringOrder
  import opened Wrappers
  import opened JsonValue
  import opened JsonPointer
  import opened JsonPatch

  /** The values directly inside an array or an object, in the order they are moved out. */
  function Children(j: Json): (r: seq<Json>)
    ensures forall c :: c in r ==> c < j
  {
    match j
    case Array(x) => x
    case Object(m) =>
      ValuesInOrder(m, SortedKeys(m.Keys))
    case _ => []
  }

  function ValuesInOrder(m: map<string, Json>, keys: seq<string>): (r: seq<Json>)
    requires forall k :: k in keys ==> k in m
    ensures |r| == |keys| && forall c :: c in r ==> c in m.Values
  {
    if keys == [] then [] else ValuesInOrder(m, keys[..|keys| - 1]) + [m[keys[|keys| - 1]]]
  }

  /** An array or object after clear(), any other value as it is. */
  function Emptied(j: Json): (r: Json)
    ensures Children(r) == []
  {
    match j
    case Array(_) => Array([])
    case Object(_) =>
      assert SortedKeys({}) == [];
      Object(map[])
    case _ => j
  }

  /** Every value strictly inside j, once for each place it stands at. */
  ghost function Descendants(j: Json): multiset<Json>
    decreases j, 1
  {
    DescendantsAmong(j, Children(j))
  }

  ghost function DescendantsAmong(parent: Json, xs: seq<Json>): multiset<Json>
    requires forall c :: c in xs ==> c < parent
    decreases parent, 0, |xs|
  {
    if xs == [] then multiset{} else
      var init, last := xs[..|xs| - 1], xs[|xs| - 1];
      assert last in xs && forall c :: c in init ==> c in xs;
      DescendantsAmong(parent, init) + multiset{last} + Descendants(last)
  }

  /** These values and everything inside them. */
  ghost function Forest(xs: seq<Json>): multiset<Json> {
    if xs == [] then multiset{} else
      Forest(xs[..|xs| - 1]) + multiset{xs[|xs| - 1]} + Descendants(xs[|xs| - 1])
  }

  lemma {:induction false} ForestIsDescendants(parent: Json, xs: seq<Json>)
    requires forall c :: c in xs ==> c < parent
    ensures Forest(xs) == DescendantsAmong(parent, xs)
    decreases |xs|
  {
    if xs != [] {
      var init := xs[..|xs| - 1];
      assert forall c :: c in init ==> c in xs;
      ForestIsDescendants(parent, init);
    }
  }

  lemma {:induction false} ForestConcat(xs: seq<Json>, ys: seq<Json>)
    ensures Forest(xs + ys) == Forest(xs) + Forest(ys)
    decreases |ys|
  {
    if ys == [] {
      assert xs + ys == xs;
    } else {
      assert (xs + ys)[..|xs + ys| - 1] == xs + ys[..|ys| - 1];
      ForestConcat(xs, ys[..|ys| - 1]);
    }
  }

  /** Taking the last value off the stack and putting its children on leaves the rest of the work. */
  lemma StackStep(stack: seq<Json>, children: seq<Json>)
    requires stack != [] && children == Children(stack[|stack| - 1])
    ensures var rest, item := stack[..|stack| - 1], stack[|stack| - 1];
      Forest(stack) == Forest(rest + children) + multiset{item} && |Forest(rest + children)| < |Forest(stack)|
  {
    ForestConcat(stack[..|stack| - 1], children);
    ForestIsDescendants(stack[|stack| - 1], children);
  }

  function Larger(m: nat, n: nat): nat {
    if m > n then m else n
  }

  /** The loop over the explicit stack: each popped value is emptied before its destructor runs. */
  method Drain(start: seq<Json>, depth: nat) returns (popped: seq<Json>, deepest: nat)
    ensures multiset(popped) == Forest(start)
    ensures deepest == if start == [] then depth else depth + 1
    decreases start != [], 0
  {
    popped, deepest := [], depth;
    var stack := start;
    ghost var all, work := Forest(start), Forest(start);
    while stack != []
      invariant work == Forest(stack) && all == multiset(popped) + work
      invariant deepest == if popped == [] then depth else depth + 1
      invariant popped == [] ==> stack == start
      decreases |work|
    {
      var item, rest := stack[|stack| - 1], stack[..|stack| - 1];
      var children := Children(item);
      StackStep(stack, children);
      stack := rest + children;
      popped := popped + [item];
      work := Forest(stack);
      var _, below := Destroy(Emptied(item), depth + 1);
      deepest := Larger(below, deepest);
    }
  }

  /**
    Runs the destructor of a value at some depth of nested destructor calls. It returns the values
    popped from the explicit stack and the greatest depth of a destructor call it led to: one more
    than its own, however deep the tree is.
   */
  method Destroy(j: Json, depth: nat) returns (popped: seq<Json>, deepest: nat)
    ensures multiset(popped) == Descendants(j)
    ensures deepest == if Children(j) == [] then depth else depth + 1
    decreases Children(j) != [], 1
  {
    // the top-level items are moved to the stack; nulls stay behind
    var items := Children(j);
    ForestIsDescendants(j, items);
    popped, deepest := Drain(items, depth);
    // the container goes, and with it the nulls that were left behind
    for left := 0 to |items|
      invariant deepest == if items == [] then depth else depth + 1
    {
      var _, below := Destroy(Null, depth + 1);
      deepest := Larger(below, deepest);
    }
  }

  // ----- what is inside a value -----

  ghost predicate Within(c: Json, v: Json) {
    c == v || v in Descendants(c)
  }

  lemma {:induction false} ForestHas(xs: seq<Json>, v: Json)
    ensures v in Forest(xs) <==> exists c :: c in xs && Within(c, v)
    decreases |xs|
  {
    hide Descendants;
    if xs != [] {
      var init, last := xs[..|xs| - 1], xs[|xs| - 1];
      assert forall c :: c in xs <==> c in init || c == last;
      ForestHas(init, v);
      assert v in Forest(xs) <==> v in Forest(init) || Within(last, v);
    }
  }

  lemma {:induction false} ValuesHave(m: map<string, Json>, keys: seq<string>, i: nat)
    requires i < |keys| && forall k :: k in keys ==> k in m
    ensures ValuesInOrder(m, keys)[i] == m[keys[i]]
    decreases |keys|
  {
    var init := keys[..|keys| - 1];
    if i < |init| {
      ValuesHave(m, init, i);
      assert init[i] == keys[i];
    }
  }

  /** The children are the elements of an array or the members of an object, and there are no others. */
  lemma ChildrenAreInside(j: Json, v: Json)
    ensures v in Children(j) <==> (j.Array? && v in j.elements) || (j.Object? && v in j.members.Values)
    ensures |Children(j)| == if j.Array? then |j.elements| else if j.Object? then |j.members| else 0
  {
    if j.Object? {
      var keys := SortedKeys(j.members.Keys);
      if v in j.members.Values {
        var k :| k in j.members && j.members[k] == v;
        assert k in keys;
        var i :| 0 <= i < |keys| && keys[i] == k;
        ValuesHave(j.members, keys, i);
      }
      assert |j.members.Keys| == |j.members|;
    }
  }

  lemma DescendantsAreForest(j: Json)
    ensures Descendants(j) == Forest(Children(j))
  {
    ForestIsDescendants(j, Children(j));
  }

  lemma DescendantsHave(j: Json, v: Json)
    ensures v in Descendants(j) <==> exists c :: c in Children(j) && Within(c, v)
  {
    hide Descendants, Forest, Children, Within;
    DescendantsAreForest(j);
    ForestHas(Children(j), v);
  }

  lemma ElementHasToken(x: seq<Json>, i: nat)
    requires i < |x| <= SIZE_MAX
    ensures Child(Array(x), Decimal(i)) == Ok(x[i])
  {
    hide ArrayIndex;
    IndexRoundTrip(i);
    assert IsDigit(Decimal(i)[0]);
  }

  lemma TokenHasChild(j: Json, token: string)
    requires Child(j, token).Ok?
    ensures var c := Child(j, token).value;
      (j.Array? && c in j.elements) || (j.Object? && c in j.members.Values)
  {
    hide ArrayIndex;
  }

  lemma ChildHasToken(j: Json, c: Json)
    requires Representable(j)
    ensures c in Children(j) <==> exists token :: Child(j, token) == Ok(c)
  {
    hide Children, Child, Decimal;
    ChildrenAreInside(j, c);
    if j.Array? && c in j.elements {
      var i :| 0 <= i < |j.elements| && j.elements[i] == c;
      ElementHasToken(j.elements, i);
    } else if j.Object? && c in j.members.Values {
      var k :| k in j.members && j.members[k] == c;
      MemberHasToken(j.members, k);
    }
    if token :| Child(j, token) == Ok(c) {
      TokenHasChild(j, token);
    }
  }

  lemma MemberHasToken(m: map<string, Json>, k: string)
    requires k in m
    ensures Child(Object(m), k) == Ok(m[k])
  {}

  /** The value stands somewhere inside. */
  ghost predicate HasPlace(j: Json, v: Json) {
    exists path: Path :: path != [] && At(j, path) == Ok(v)
  }

  lemma PlaceFound(j: Json, path: Path, v: Json)
    requires path != [] && At(j, path) == Ok(v)
    ensures HasPlace(j, v)
  {}

  lemma PlaceBelow(j: Json, token: string, v: Json)
    requires Child(j, token).Ok?
    ensures Child(j, token).value == v || HasPlace(Child(j, token).value, v) ==> HasPlace(j, v)
  {
    if Child(j, token).value == v {
      assert [token][1..] == [];
      PlaceFound(j, [token], v);
    } else if HasPlace(Child(j, token).value, v) {
      var path: Path :| path != [] && At(Child(j, token).value, path) == Ok(v);
      assert ([token] + path)[1..] == path;
      PlaceFound(j, [token] + path, v);
    }
  }

  lemma PlaceAbove(j: Json, v: Json) returns (token: string)
    requires HasPlace(j, v)
    ensures Child(j, token).Ok? && (Child(j, token).value == v || HasPlace(Child(j, token).value, v))
  {
    var path: Path :| path != [] && At(j, path) == Ok(v);
    token := path[0];
    assert At(Child(j, token).value, path[1..]) == Ok(v);
    if |path| > 1 {
      PlaceFound(Child(j, token).value, path[1..], v);
    }
  }

  /** What is destroyed with a value are exactly the values at the places inside it. */
  lemma {:induction false} DescendantsArePlaces(j: Json, v: Json)
    requires Representable(j)
    ensures v in Descendants(j) <==> HasPlace(j, v)
    decreases j
  {
    hide Descendants, HasPlace, Child, Children, Representable;
    DescendantsHave(j, v);
    if v in Descendants(j) {
      var c :| c in Children(j) && Within(c, v);
      ChildHasToken(j, c);
      var token :| Child(j, token) == Ok(c);
      ChildRepresentable(j, token);
      if c != v {
        DescendantsArePlaces(c, v);
      }
      PlaceBelow(j, token, v);
    }
    if HasPlace(j, v) {
      var token := PlaceAbove(j, v);
      var c := Child(j, token).value;
      ChildHasToken(j, c);
      ChildRepresentable(j, token);
      if c != v {
        DescendantsArePlaces(c, v);
      }
    }
  }

  lemma ChildRepresentable(j: Json, token: string)
    requires Representable(j) && Child(j, token).Ok?
    ensures Representable(Child(j, token).value)
  {}
}
