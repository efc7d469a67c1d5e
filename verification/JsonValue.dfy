/** JSON values as nlohmann's basic_json stores them, and the comparison operator==. */
module JsonValue {

  const SIZE_MAX: nat := 0xFFFF_FFFF_FFFF_FFFF

  type int64 = i: int | -0x8000_0000_0000_0000 <= i < 0x8000_0000_0000_0000
  type uint64 = i: int | 0 <= i < 0x1_0000_0000_0000_0000

  datatype Float = NaN | NegativeInfinity | PositiveInfinity | Finite(r: real)

  datatype Json =
    | Null
    | Object(members: map<string, Json>)
    | Array(elements: seq<Json>)
    | String(text: string)
    | Boolean(b: bool)
    | Integer(i: int64)
    | Unsigned(u: uint64)
    | Real(f: Float)
    | Binary(bytes: seq<bv8>, subtype: int)
    | Discarded

  datatype Kind =
    | NullKind | ObjectKind | ArrayKind | StringKind | BooleanKind
    | IntegerKind | UnsignedKind | RealKind | BinaryKind | DiscardedKind

  function TypeOf(j: Json): Kind {
    match j
    case Null => NullKind
    case Object(_) => ObjectKind
    case Array(_) => ArrayKind
    case String(_) => StringKind
    case Boolean(_) => BooleanKind
    case Integer(_) => IntegerKind
    case Unsigned(_) => UnsignedKind
    case Real(_) => RealKind
    case Binary(_, _) => BinaryKind
    case Discarded => DiscardedKind
  }

  // ----- numbers -----

  /** The power of two by which n has to be divided to fit in a 53-bit significand. */
  function Ulp(n: nat): (p: nat)
    ensures p > 0
  {
    if n < 0x20_0000_0000_0000 then 1 else 2 * Ulp(n / 2)
  }

  /** A number to 53 significant bits: to nearest, ties to even. */
  function Rounded(n: nat): int {
    var p := Ulp(n);
    var q, r := n / p, n % p;
    if 2 * r > p || (2 * r == p && q % 2 == 1) then (q + 1) * p else q * p
  }

  /** static_cast<double> of an integer. */
  function ToFloat(i: int): Float {
    Finite((if i < 0 then -Rounded(-i) else Rounded(i)) as real)
  }

  /** static_cast<int64_t> of an unsigned integer. */
  function ToSigned(u: uint64): int64 {
    if u < 0x8000_0000_0000_0000 then u else u - 0x1_0000_0000_0000_0000
  }

  predicate FloatEq(x: Float, y: Float) {
    !x.NaN? && x == y
  }

  // ----- operator== -----

  predicate Eq(a: Json, b: Json)
    decreases a
  {
    match (a, b)
    case (Array(x), Array(y)) => |x| == |y| && forall i :: 0 <= i < |x| ==> Eq(x[i], y[i])
    case (Object(m), Object(n)) => m.Keys == n.Keys && forall k :: k in m ==> Eq(m[k], n[k])
    case (Null, Null) => true
    case (String(s), String(t)) => s == t
    case (Boolean(s), Boolean(t)) => s == t
    case (Integer(i), Integer(j)) => i == j
    case (Unsigned(i), Unsigned(j)) => i == j
    case (Real(x), Real(y)) => FloatEq(x, y)
    case (Binary(x, p), Binary(y, q)) => x == y && p == q
    case (Integer(i), Real(y)) => FloatEq(ToFloat(i), y)
    case (Real(x), Integer(j)) => FloatEq(x, ToFloat(j))
    case (Unsigned(i), Real(y)) => FloatEq(ToFloat(i), y)
    case (Real(x), Unsigned(j)) => FloatEq(x, ToFloat(j))
    case (Unsigned(i), Integer(j)) => ToSigned(i) == j
    case (Integer(i), Unsigned(j)) => i == ToSigned(j)
    case _ => false
  }

  /** No NaN and no discarded value anywhere inside. */
  predicate Comparable(j: Json) {
    match j
    case Array(x) => forall i :: 0 <= i < |x| ==> Comparable(x[i])
    case Object(m) => forall k :: k in m ==> Comparable(m[k])
    case Real(x) => !x.NaN?
    case Discarded => false
    case _ => true
  }

  /** A value equals itself exactly when it holds no NaN and no discarded value. */
  lemma {:induction false} EqReflexive(j: Json)
    ensures Eq(j, j) <==> Comparable(j)
  {
    match j
    case Array(x) => forall i | 0 <= i < |x| ensures Eq(x[i], x[i]) <==> Comparable(x[i]) { EqReflexive(x[i]); }
    case Object(m) => forall k | k in m ensures Eq(m[k], m[k]) <==> Comparable(m[k]) { EqReflexive(m[k]); }
    case _ =>
  }

  /** Nothing equals a value that is not comparable. */
  lemma {:induction false} EqComparable(a: Json, b: Json)
    requires Eq(a, b)
    ensures Comparable(b)
    decreases a
  {
    match (a, b)
    case (Array(x), Array(y)) => forall i | 0 <= i < |y| ensures Comparable(y[i]) { EqComparable(x[i], y[i]); }
    case (Object(m), Object(n)) => forall k | k in n ensures Comparable(n[k]) { EqComparable(m[k], n[k]); }
    case _ =>
  }

  // ----- transitivity -----

  predicate IsWhole(j: Json) {
    j.Integer? || j.Unsigned?
  }

  /** The value of an integer as a signed one. */
  function SignedValue(j: Json): int
    requires IsWhole(j)
  {
    if j.Integer? then j.i else ToSigned(j.u)
  }

  /** A negative integer beside an unsigned one: they compare equal only because of the cast. */
  predicate Wraps(a: Json, b: Json) {
    (a.Integer? && b.Unsigned? && a.i < 0) || (a.Unsigned? && b.Integer? && b.i < 0)
  }

  /**
    Somewhere inside, a float stands between integers that differ, or an integer between a float and
    an integer of the other kind that it becomes by a cast.
   */
  predicate Clash(a: Json, b: Json, c: Json)
    decreases a
  {
    match (a, b, c)
    case (Array(x), Array(y), Array(z)) => exists i :: 0 <= i < |x| && i < |y| && i < |z| && Clash(x[i], y[i], z[i])
    case (Object(m), Object(n), Object(o)) => exists k :: k in m && k in n && k in o && Clash(m[k], n[k], o[k])
    case (Real(_), _, _) => Wraps(b, c)
    case (_, Real(_), _) => IsWhole(a) && IsWhole(c) && SignedValue(a) != SignedValue(c)
    case (_, _, Real(_)) => Wraps(a, b)
    case _ => false
  }

  lemma {:induction false} UlpAtMost(n: nat)
    requires n > 0
    ensures Ulp(n) <= n
  {
    if n >= 0x20_0000_0000_0000 {
      UlpAtMost(n / 2);
    }
  }

  /** Rounding keeps the sign. */
  lemma FloatSign(i: int)
    ensures var f := ToFloat(i); f.Finite? && (i > 0 ==> f.r > 0.0) && (i < 0 ==> f.r < 0.0)
  {
    if i != 0 {
      var n := if i < 0 then -i else i;
      var p := Ulp(n);
      UlpAtMost(n);
      assert n / p >= 1;
      Positive(n / p, p);
      Positive(n / p + 1, p);
    }
  }

  lemma Positive(q: int, p: int)
    requires q > 0 && p > 0
    ensures q * p > 0
  {}

  /** Integers of both kinds have the same value and the same float, or the cast has wrapped around and both differ. */
  lemma CastIsValue(i: int64, u: uint64)
    requires i == ToSigned(u)
    ensures if i < 0 then ToFloat(i) != ToFloat(u) else i == u
  {
    FloatSign(i);
    FloatSign(u);
  }

  lemma LeafTransitive(a: Json, b: Json, c: Json)
    requires Eq(a, b) && Eq(b, c) && !a.Array? && !a.Object?
    ensures Eq(a, c) <==> !Clash(a, b, c)
  {
    hide ToFloat, ToSigned;
    if b.Integer? && c.Unsigned? { CastIsValue(b.i, c.u); }
    if b.Unsigned? && c.Integer? { CastIsValue(c.i, b.u); }
    if a.Integer? && b.Unsigned? { CastIsValue(a.i, b.u); }
    if a.Unsigned? && b.Integer? { CastIsValue(b.i, a.u); }
    CastOneToOne(a, c);
    CastOneToOne(a, b);
    CastOneToOne(b, c);
  }

  lemma CastOneToOne(a: Json, b: Json)
    ensures a.Unsigned? && b.Unsigned? ==> (ToSigned(a.u) == ToSigned(b.u) <==> a.u == b.u)
  {}

  /** Where two pairs are equal, the outer values are equal exactly when there is no clash. */
  lemma {:induction false} EqTransitive(a: Json, b: Json, c: Json)
    requires Eq(a, b) && Eq(b, c)
    ensures Eq(a, c) <==> !Clash(a, b, c)
    decreases a
  {
    match a
    case Array(x) =>
      forall i | 0 <= i < |x|
        ensures Eq(x[i], c.elements[i]) <==> !Clash(x[i], b.elements[i], c.elements[i])
      {
        EqTransitive(x[i], b.elements[i], c.elements[i]);
      }
    case Object(m) =>
      forall k | k in m
        ensures Eq(m[k], c.members[k]) <==> !Clash(m[k], b.members[k], c.members[k])
      {
        EqTransitive(m[k], b.members[k], c.members[k]);
      }
    case _ => LeafTransitive(a, b, c);
  }

  /** operator== is not transitive: an integer may be rounded to a float. */
  lemma RoundingClash()
    ensures var a, b, c := Integer(0x20_0000_0000_0000), Real(Finite(9007199254740992.0)), Integer(0x20_0000_0000_0001);
      Eq(a, b) && Eq(b, c) && !Eq(a, c)
  {
    assert Ulp(0x20_0000_0000_0001) == 2;
  }

  /** Nor is it without rounding: the cast of an unsigned integer may wrap around. */
  lemma WrappingClash()
    ensures var a, b, c := Real(Finite(-1.0)), Integer(-1), Unsigned(0xFFFF_FFFF_FFFF_FFFF);
      Eq(a, b) && Eq(b, c) && !Eq(a, c)
  {
    FloatSign(0xFFFF_FFFF_FFFF_FFFF);
  }

  /** Every array is small enough for its size to be a size_type. */
  predicate Representable(j: Json) {
    match j
    case Array(x) => |x| <= SIZE_MAX && forall i :: 0 <= i < |x| ==> Representable(x[i])
    case Object(m) => forall k :: k in m ==> Representable(m[k])
    case _ => true
  }
}
