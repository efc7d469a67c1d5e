/** What operator== of JSON values decides, told without it. */
module JsonEquality {
  import opened JsonValue
  import opened Words

  predicate IsNumber(j: Json) {
    j.Integer? || j.Unsigned? || j.Real?
  }

  /** No number and no discarded value anywhere inside. */
  predicate NumberFree(j: Json) {
    match j
    case Array(x) => forall i :: 0 <= i < |x| ==> NumberFree(x[i])
    case Object(m) => forall k :: k in m ==> NumberFree(m[k])
    case _ => !IsNumber(j) && !j.Discarded?
  }

  predicate SameKind(a: Json, b: Json) {
    (a.Integer? && b.Integer?) || (a.Unsigned? && b.Unsigned?) || (a.Real? && b.Real?)
  }

  /** Somewhere inside, numbers of different kinds stand opposite each other. */
  predicate Mixed(a: Json, b: Json)
    decreases a
  {
    match (a, b)
    case (Array(x), Array(y)) => exists i :: 0 <= i < |x| && i < |y| && Mixed(x[i], y[i])
    case (Object(m), Object(n)) => exists k :: k in m && k in n && Mixed(m[k], n[k])
    case _ => IsNumber(a) && IsNumber(b) && !SameKind(a, b)
  }

  /** Where numbers meet numbers of their kind only, values are equal if they are the same and can equal anything. */
  lemma {:induction false} EqIsEquality(a: Json, b: Json)
    requires !Mixed(a, b)
    ensures Eq(a, b) <==> a == b && Comparable(b)
    decreases a
  {
    match (a, b)
    case (Array(x), Array(y)) =>
      forall i | 0 <= i < |x| && i < |y|
        ensures Eq(x[i], y[i]) <==> x[i] == y[i] && Comparable(y[i])
      {
        EqIsEquality(x[i], y[i]);
      }
      if Eq(a, b) {
        assert x == y;
      }
    case (Object(m), Object(n)) =>
      forall k | k in m && k in n
        ensures Eq(m[k], n[k]) <==> m[k] == n[k] && Comparable(n[k])
      {
        EqIsEquality(m[k], n[k]);
      }
      if Eq(a, b) {
        assert m == n;
      }
    case _ =>
  }

  lemma {:induction false} NumberFreeUnmixed(a: Json, b: Json)
    requires NumberFree(a) || NumberFree(b)
    ensures !Mixed(a, b)
    decreases a
  {
    match (a, b)
    case (Array(x), Array(y)) =>
      forall i | 0 <= i < |x| && i < |y|
        ensures !Mixed(x[i], y[i])
      {
        NumberFreeUnmixed(x[i], y[i]);
      }
    case (Object(m), Object(n)) =>
      forall k | k in m && k in n
        ensures !Mixed(m[k], n[k])
      {
        NumberFreeUnmixed(m[k], n[k]);
      }
    case _ =>
  }

  lemma {:induction false} NumberFreeComparable(j: Json)
    requires NumberFree(j)
    ensures Comparable(j)
  {
    match j
    case Array(x) => forall i | 0 <= i < |x| ensures Comparable(x[i]) { NumberFreeComparable(x[i]); }
    case Object(m) => forall k | k in m ensures Comparable(m[k]) { NumberFreeComparable(m[k]); }
    case _ =>
  }

  /** Without numbers, equal is the same. */
  lemma EqNumberFree(a: Json, b: Json)
    requires NumberFree(a) || NumberFree(b)
    ensures Eq(a, b) <==> a == b
  {
    NumberFreeUnmixed(a, b);
    EqIsEquality(a, b);
    if a == b {
      NumberFreeComparable(b);
    }
  }

  lemma {:induction false} EqSymmetric(a: Json, b: Json)
    ensures Eq(a, b) <==> Eq(b, a)
    decreases a
  {
    match (a, b)
    case (Array(x), Array(y)) =>
      forall i | 0 <= i < |x| && i < |y|
        ensures Eq(x[i], y[i]) <==> Eq(y[i], x[i])
      {
        EqSymmetric(x[i], y[i]);
      }
    case (Object(m), Object(n)) =>
      forall k | k in m && k in n
        ensures Eq(m[k], n[k]) <==> Eq(n[k], m[k])
      {
        EqSymmetric(m[k], n[k]);
      }
    case _ =>
  }

  // ----- numbers of different kinds -----

  /** A signed integer equals an unsigned one exactly when they are the same modulo 2^64. */
  lemma SignedAgainstUnsigned(i: int64, u: uint64)
    ensures Eq(Integer(i), Unsigned(u)) <==> (u - i) % 0x1_0000_0000_0000_0000 == 0
  {}

  function Distance(x: int, y: int): nat {
    if x < y then y - x else x - y
  }

  /** An integer that a double holds exactly: at most 53 bits, shifted. */
  ghost predicate IsDouble(n: int) {
    exists m: int, e: nat :: IsShifted(n, m, e)
  }

  predicate IsShifted(n: int, m: int, e: nat) {
    -0x20_0000_0000_0000 <= m <= 0x20_0000_0000_0000 && n == m * Pow2(e)
  }

  /** No double is nearer to i than n; and if another one is as near, then n is the even one. */
  ghost predicate IsNearest(i: int, n: int) {
    && IsDouble(n)
    && forall m: int :: IsDouble(m) && m != n ==> Preferred(i, n, m)
  }

  predicate Preferred(i: int, n: int, m: int)
    requires n != m
  {
    Distance(i, n) < Distance(i, m) || (Distance(i, n) == Distance(i, m) && n % (2 * Distance(n, m)) == 0)
  }

  /** An integer equals a float exactly when the float is the double nearest to it. */
  lemma WholeAgainstFloat(i: int, f: Float)
    requires -0x8000_0000_0000_0000 <= i < 0x1_0000_0000_0000_0000
    ensures i < 0x8000_0000_0000_0000 ==>
      (Eq(Integer(i), Real(f)) <==> exists n: int :: IsNearest(i, n) && f == Finite(n as real))
    ensures i >= 0 ==>
      (Eq(Unsigned(i), Real(f)) <==> exists n: int :: IsNearest(i, n) && f == Finite(n as real))
  {
    var rounded := if i < 0 then -Rounded(-i) else Rounded(i);
    RoundedIsNearest(i);
    forall n: int | IsNearest(i, n)
      ensures n == rounded
    {
      NearestIsUnique(i, n, rounded);
    }
  }

  lemma NearestIsUnique(i: int, n: int, m: int)
    requires IsNearest(i, n) && IsNearest(i, m)
    ensures n == m
  {
    if n != m {
      var d := Distance(n, m);
      assert n % (2 * d) == 0 && m % (2 * d) == 0;
      MultiplesApart(n, m, 2 * d);
    }
  }

  lemma MultiplesApart(n: int, m: int, d: nat)
    requires d > 0 && n % d == 0 && m % d == 0 && n != m
    ensures Distance(n, m) >= d
  {
    var q, t := n / d, m / d;
    assert n == q * d && m == t * d;
    if q > t {
      TimesAtLeast(q - t, d);
    } else if t > q {
      TimesAtLeast(t - q, d);
    }
  }

  lemma {:induction false} UlpShifts(n: nat) returns (k: nat)
    ensures Ulp(n) == Pow2(k) && n / Ulp(n) < 0x20_0000_0000_0000
    ensures k > 0 ==> n / Ulp(n) >= 0x10_0000_0000_0000
  {
    if n < 0x20_0000_0000_0000 {
      k := 0;
    } else {
      var half := UlpShifts(n / 2);
      HalfFirst(n, Ulp(n / 2));
      k := half + 1;
    }
  }

  /** Rounding n == q * p + r goes to the nearest multiple of p, or the even one of two. */
  lemma NearestMultiple(q: nat, p: nat, r: nat, rounded: int, t: int)
    requires r < p && t * p != rounded
    requires rounded == if 2 * r > p || (2 * r == p && q % 2 == 1) then (q + 1) * p else q * p
    ensures Preferred(q * p + r, rounded, t * p)
  {
    var n := q * p + r;
    if t <= q {
      assert n - t * p == (q - t) * p + r;
      if t < q {
        TimesAtLeast(q - t, p);
      } else {
        assert rounded == (q + 1) * p && rounded - t * p == p;
        EvenMultiple(q + 1, p);
      }
    } else {
      assert t * p - n == (t - q) * p - r;
      if t > q + 1 {
        TimesAtLeast(t - q - 1, p);
        assert (t - q) * p == (t - q - 1) * p + p;
      } else {
        assert rounded == q * p && t * p - rounded == p;
        EvenMultiple(q, p);
      }
    }
  }

  lemma EvenMultiple(q: nat, p: nat)
    requires p > 0
    ensures q % 2 == 0 ==> q * p % (2 * p) == 0
  {
    if q % 2 == 0 {
      assert q * p == q / 2 * (2 * p);
      MultipleMod(q / 2, 2 * p);
    }
  }

  lemma MultipleMod(k: nat, d: nat)
    requires d > 0
    ensures k * d % d == 0
  {
    QuotientIs(k * d, k, d, 0);
  }

  lemma TimesAssociates(m: int, a: int, b: int)
    ensures m * (a * b) == m * a * b
  {}

  lemma PreferredToDoubles(n: nat, y: int, m: int, e: nat)
    requires IsShifted(y, m, e) && y != Rounded(n)
    ensures Preferred(n, Rounded(n), y)
  {
    hide Ulp, Pow2, Preferred, Rounded;
    var k, q, p, r := Parts(n);
    if e >= k {
      Pow2Sum(e - k, k);
      var shift := Pow2(e - k);
      TimesAssociates(m, shift, p);
      NearestMultiple(q, p, r, Rounded(n), m * shift);
    } else {
      Doubled(e, k);
      BelowMultiple(q, p, m, Pow2(e), 0x10_0000_0000_0000);
      PreferredBelow(q, p, r, Rounded(n), y);
    }
  }

  lemma Parts(n: nat) returns (k: nat, q: nat, p: nat, r: nat)
    ensures p == Pow2(k) && r < p && n == q * p + r && (k > 0 ==> q >= 0x10_0000_0000_0000)
    ensures Rounded(n) == if 2 * r > p || (2 * r == p && q % 2 == 1) then (q + 1) * p else q * p
  {
    hide Ulp, Pow2;
    k := UlpShifts(n);
    p := Pow2(k);
    q, r := n / p, n % p;
  }

  lemma Doubled(e: nat, k: nat)
    requires e < k
    ensures 2 * Pow2(e) <= Pow2(k)
  {
    var d := Pow2(k - e - 1);
    Pow2Sum(e + 1, k - e - 1);
    TimesAtLeast(d, 2 * Pow2(e));
  }

  lemma BelowMultiple(q: nat, p: nat, m: int, s: nat, c: nat)
    requires m <= 2 * c && 2 * s <= p && c <= q
    ensures m * s <= q * p
  {
    Monotone(m, 2 * c, s);
    Monotone(2 * s, p, c);
    Monotone(c, q, p);
  }

  lemma PreferredBelow(q: nat, p: nat, r: nat, rounded: int, y: int)
    requires r < p && y != rounded && y <= q * p
    requires rounded == if 2 * r > p || (2 * r == p && q % 2 == 1) then (q + 1) * p else q * p
    ensures Preferred(q * p + r, rounded, y)
  {
    if q * p != rounded {
      NearestMultiple(q, p, r, rounded, q);
    }
  }

  lemma Monotone(a: int, b: int, s: nat)
    requires a <= b
    ensures a * s <= b * s
  {
    assert (b - a) * s >= 0;
  }

  lemma RoundedIsDouble(n: nat)
    ensures IsDouble(Rounded(n)) && IsDouble(-Rounded(n))
  {
    hide Ulp, Pow2;
    var k := UlpShifts(n);
    var m := if Rounded(n) == n / Ulp(n) * Ulp(n) then n / Ulp(n) else n / Ulp(n) + 1;
    assert IsShifted(Rounded(n), m, k) && IsShifted(-Rounded(n), -m, k);
  }

  lemma PreferredMirrored(i: int, n: int, m: int)
    requires n != m && Preferred(-i, -n, -m)
    ensures Preferred(i, n, m)
  {
    var d := Distance(n, m);
    assert Distance(-n, -m) == d;
    if -n % (2 * d) == 0 {
      var k := -n / (2 * d);
      assert -n == k * (2 * d);
      assert n == -k * (2 * d);
      NegatedMultiple(n, -k, 2 * d);
    }
  }

  lemma NegatedMultiple(n: int, k: int, d: nat)
    requires d > 0 && n == k * d
    ensures n % d == 0
  {
    var e := n / d - k;
    assert n == n / d * d + n % d;
    assert e * d == -(n % d);
    if e >= 1 {
      TimesAtLeast(e, d);
    } else if e <= -1 {
      TimesAtLeast(-e, d);
    }
  }

  lemma RoundedIsNearest(i: int)
    ensures IsNearest(i, if i < 0 then -Rounded(-i) else Rounded(i))
  {
    hide Rounded, Pow2;
    var n := if i < 0 then -i else i;
    var rounded := if i < 0 then -Rounded(n) else Rounded(n);
    RoundedIsDouble(n);
    forall y: int | IsDouble(y) && y != rounded
      ensures Preferred(i, rounded, y)
    {
      var m: int, e: nat :| IsShifted(y, m, e);
      if i < 0 {
        assert -y == -m * Pow2(e);
        assert IsShifted(-y, -m, e);
        PreferredToDoubles(n, -y, -m, e);
        PreferredMirrored(i, rounded, y);
      } else {
        PreferredToDoubles(n, y, m, e);
      }
    }
  }
}
