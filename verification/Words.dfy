/** 32-bit words and bytes as numbers, with the operations the hash functions use. */
module Words {

  const MODULUS: int := 0x1_0000_0000

  type word = i: int | 0 <= i < 0x1_0000_0000

  type byte = i: int | 0 <= i < 256

  function Pow2(n: nat): (p: nat)
    ensures p > 0
  {
    if n == 0 then 1 else 2 * Pow2(n - 1)
  }

  // ----- bitwise operations on numbers of any size -----

  function BitAnd(x: nat, y: nat): nat {
    if x == 0 || y == 0 then 0 else 2 * BitAnd(x / 2, y / 2) + (if x % 2 == 1 && y % 2 == 1 then 1 else 0)
  }

  function BitOr(x: nat, y: nat): nat {
    if x == 0 && y == 0 then 0 else 2 * BitOr(x / 2, y / 2) + (if x % 2 == 1 || y % 2 == 1 then 1 else 0)
  }

  function BitXor(x: nat, y: nat): nat {
    if x == 0 && y == 0 then 0 else 2 * BitXor(x / 2, y / 2) + (if x % 2 != y % 2 then 1 else 0)
  }

  /** The operations act on the lowest bits and on the rest separately. */
  lemma Split(x: nat, y: nat)
    ensures BitAnd(x, y) / 2 == BitAnd(x / 2, y / 2) && BitAnd(x, y) % 2 == if x % 2 == 1 && y % 2 == 1 then 1 else 0
    ensures BitOr(x, y) / 2 == BitOr(x / 2, y / 2) && BitOr(x, y) % 2 == if x % 2 == 1 || y % 2 == 1 then 1 else 0
    ensures BitXor(x, y) / 2 == BitXor(x / 2, y / 2) && BitXor(x, y) % 2 == if x % 2 != y % 2 then 1 else 0
  {}

  lemma {:induction false} Bounded(x: nat, y: nat, n: nat)
    requires x < Pow2(n) && y < Pow2(n)
    ensures BitAnd(x, y) < Pow2(n) && BitOr(x, y) < Pow2(n) && BitXor(x, y) < Pow2(n)
  {
    if n > 0 {
      Bounded(x / 2, y / 2, n - 1);
      Split(x, y);
    }
  }

  // ----- the same on words -----

  lemma Pow2Word()
    ensures Pow2(32) == MODULUS
  {
    assert Pow2(8) == 256;
    assert Pow2(16) == 0x1_0000;
    assert Pow2(24) == 0x100_0000;
  }

  function And(x: word, y: word): word {
    Pow2Word();
    Bounded(x, y, 32);
    BitAnd(x, y)
  }

  function Or(x: word, y: word): word {
    Pow2Word();
    Bounded(x, y, 32);
    BitOr(x, y)
  }

  function Xor(x: word, y: word): word {
    Pow2Word();
    Bounded(x, y, 32);
    BitXor(x, y)
  }

  function Not(x: word): word {
    MODULUS - 1 - x
  }

  function Add(x: word, y: word): word {
    (x + y) % MODULUS
  }

  function ShiftLeft(x: word, n: nat): word {
    x * Pow2(n) % MODULUS
  }

  function ShiftRight(x: word, n: nat): (r: word)
    ensures r <= x
  {
    if n == 0 then x else ShiftRight(x / 2, n - 1)
  }

  function RotateLeft(x: word, n: nat): word
    requires n <= 32
  {
    Or(ShiftLeft(x, n), ShiftRight(x, 32 - n))
  }

  lemma {:induction false} BitAndCommutes(x: nat, y: nat)
    ensures BitAnd(x, y) == BitAnd(y, x)
  {
    if x > 0 && y > 0 { BitAndCommutes(x / 2, y / 2); }
  }

  lemma AndCommutes(x: word, y: word)
    ensures And(x, y) == And(y, x)
  {
    BitAndCommutes(x, y);
  }

  lemma AddCommutes(x: word, y: word)
    ensures Add(x, y) == Add(y, x)
  {}

  /** At most one multiple of 2^32 is lost. */
  lemma AddIs(x: word, y: word)
    ensures Add(x, y) == if x + y < MODULUS then x + y else x + y - MODULUS
  {}

  lemma AddAssociates(x: word, y: word, z: word)
    ensures Add(Add(x, y), z) == Add(x, Add(y, z))
  {
    hide Add;
    AddIs(x, y);
    AddIs(Add(x, y), z);
    AddIs(y, z);
    AddIs(x, Add(y, z));
  }

  // ----- identities between bitwise expressions -----

  type bit = i: int | 0 <= i < 2

  /** The operations on numbers whose lowest bits are given. */
  lemma LowestBits(x: nat, b: bit, y: nat, c: bit)
    ensures BitAnd(2 * x + b, 2 * y + c) == 2 * BitAnd(x, y) + if b == 1 && c == 1 then 1 else 0
    ensures BitOr(2 * x + b, 2 * y + c) == 2 * BitOr(x, y) + if b == 1 || c == 1 then 1 else 0
    ensures BitXor(2 * x + b, 2 * y + c) == 2 * BitXor(x, y) + if b != c then 1 else 0
  {
    assert (2 * x + b) / 2 == x && (2 * x + b) % 2 == b;
    assert (2 * y + c) / 2 == y && (2 * y + c) % 2 == c;
  }

  predicate Selects(x: nat, x': nat, y: nat, z: nat) {
    BitXor(z, BitAnd(x, BitXor(y, z))) == BitXor(BitAnd(x, y), BitAnd(x', z)) == BitOr(BitAnd(x, y), BitAnd(x', z))
  }

  lemma SelectsOneMore(x: nat, x': nat, y: nat, z: nat, b: bit, c: bit, d: bit)
    requires Selects(x, x', y, z)
    ensures Selects(2 * x + b, 2 * x' + 1 - b, 2 * y + c, 2 * z + d)
  {
    hide BitAnd, BitOr, BitXor;
    var differ: bit := if c != d then 1 else 0;
    var picked: bit := if b == 1 && differ == 1 then 1 else 0;
    var left: bit := if b == 1 && c == 1 then 1 else 0;
    var right: bit := if b == 0 && d == 1 then 1 else 0;
    LowestBits(y, c, z, d);
    LowestBits(x, b, BitXor(y, z), differ);
    LowestBits(z, d, BitAnd(x, BitXor(y, z)), picked);
    LowestBits(x, b, y, c);
    LowestBits(x', 1 - b, z, d);
    LowestBits(BitAnd(x, y), left, BitAnd(x', z), right);
  }

  /** z ^ (x & (y ^ z)) selects y where x has a one and z where it has a zero. */
  lemma {:induction false} SelectBits(x: nat, y: nat, z: nat, n: nat)
    requires x < Pow2(n) && y < Pow2(n) && z < Pow2(n)
    ensures Selects(x, Pow2(n) - 1 - x, y, z)
  {
    if n > 0 {
      hide Selects;
      var p := Pow2(n - 1);
      SelectBits(x / 2, y / 2, z / 2, n - 1);
      SelectsOneMore(x / 2, p - 1 - x / 2, y / 2, z / 2, x % 2, y % 2, z % 2);
      assert x == 2 * (x / 2) + x % 2 && y == 2 * (y / 2) + y % 2 && z == 2 * (z / 2) + z % 2;
    }
  }

  lemma {:induction false} MajorityBits(x: nat, y: nat, z: nat, n: nat)
    requires x < Pow2(n) && y < Pow2(n) && z < Pow2(n)
    ensures BitOr(BitAnd(x, y), BitAnd(z, BitOr(x, y))) == BitXor(BitXor(BitAnd(x, y), BitAnd(x, z)), BitAnd(y, z))
  {
    if n > 0 {
      MajorityBits(x / 2, y / 2, z / 2, n - 1);
      Split(x, y);
      Split(x, z);
      Split(y, z);
      Split(z, BitOr(x, y));
      Split(BitAnd(x, y), BitAnd(z, BitOr(x, y)));
      Split(BitAnd(x, y), BitAnd(x, z));
      Split(BitXor(BitAnd(x, y), BitAnd(x, z)), BitAnd(y, z));
    }
  }

  lemma {:induction false} OrZero(x: nat)
    ensures BitOr(x, 0) == x && BitOr(0, x) == x
  {
    if x > 0 { OrZero(x / 2); }
  }

  /** Numbers without a common bit: or is plus. */
  lemma {:induction false} OrIsPlus(high: nat, low: nat, n: nat)
    requires low < Pow2(n)
    ensures BitOr(high * Pow2(n), low) == high * Pow2(n) + low
    ensures BitOr(low, high * Pow2(n)) == high * Pow2(n) + low
  {
    if n == 0 {
      OrZero(high);
    } else {
      var h := high * Pow2(n);
      assert h == 2 * (high * Pow2(n - 1));
      OrIsPlus(high, low / 2, n - 1);
      Split(h, low);
      Split(low, h);
      assert h / 2 == high * Pow2(n - 1) && h % 2 == 0;
    }
  }

  // ----- shifts and rotations as arithmetic -----

  lemma TimesAtLeast(k: int, d: nat)
    requires k >= 1
    ensures k * d >= d
  {}

  lemma HalfFirst(n: nat, p: nat)
    requires p > 0
    ensures n / (2 * p) == n / 2 / p
  {
    var q, r := n / 2 / p, n / 2 % p;
    assert n == 2 * (q * p + r) + n % 2;
    QuotientIs(n, q, 2 * p, 2 * r + n % 2);
  }

  lemma QuotientIs(n: nat, q: nat, d: nat, r: nat)
    requires n == q * d + r && r < d
    ensures n / d == q
  {
    var e := n / d - q;
    assert n == n / d * d + n % d;
    assert e * d == r - n % d;
    if e >= 1 {
      TimesAtLeast(e, d);
    } else if e <= -1 {
      TimesAtLeast(-e, d);
    }
  }

  lemma {:induction false} Pow2Sum(a: nat, b: nat)
    ensures Pow2(a + b) == Pow2(a) * Pow2(b)
  {
    if a > 0 {
      Pow2Sum(a - 1, b);
    }
  }

  lemma {:induction false} ShiftRightIs(x: word, n: nat)
    ensures ShiftRight(x, n) == x / Pow2(n)
    decreases n
  {
    if n > 0 {
      ShiftRightIs(x / 2, n - 1);
      HalfFirst(x, Pow2(n - 1));
    }
  }

  lemma ShiftLeftIs(x: word, n: nat)
    requires n <= 32
    ensures ShiftLeft(x, n) == x % Pow2(32 - n) * Pow2(n)
  {
    hide Pow2;
    Pow2Word();
    Pow2Sum(32 - n, n);
    ShiftedModulo(x, Pow2(32 - n), Pow2(n));
  }

  lemma ShiftedModulo(x: nat, p: nat, q: nat)
    requires p > 0 && q > 0
    ensures x * q % (p * q) == x % p * q
  {
    var h, l := x / p, x % p;
    Distributed(h, l, p, q);
    QuotientIs(x * q, h, p * q, l * q);
  }

  lemma Distributed(h: nat, l: nat, p: nat, q: nat)
    requires l < p && q > 0
    ensures (h * p + l) * q == h * (p * q) + l * q && l * q < p * q
  {
    TimesAtLeast(p - l, q);
  }

  /** Rotation: the upper n bits become the lower ones, and the others move up. */
  lemma RotateLeftMeans(x: word, n: nat)
    requires n <= 32
    ensures RotateLeft(x, n) == x % Pow2(32 - n) * Pow2(n) + x / Pow2(32 - n)
  {
    hide Pow2, BitOr;
    ShiftLeftIs(x, n);
    ShiftRightIs(x, 32 - n);
    Pow2Word();
    Pow2Sum(32 - n, n);
    UpperFit(x, Pow2(32 - n), Pow2(n));
    OrIsPlus(x % Pow2(32 - n), x / Pow2(32 - n), n);
  }

  lemma UpperFit(x: nat, p: nat, q: nat)
    requires p > 0 && x < p * q
    ensures x / p < q
  {
    assert x / p * p <= x;
    if x / p >= q {
      TimesAtLeast(x / p - q + 1, p);
    }
  }
}
