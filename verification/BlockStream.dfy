/** What the two hashers share: messages cut into blocks of 64 bytes, and a buffer for the rest. */
module BlockStream {
  import opened Words

  type Block = s: seq<byte> | |s| == 64 witness seq(64, _ => 0)

  /** The state after all whole blocks of the data. */
  function Fold<S>(f: (S, Block) -> S, s: S, data: seq<byte>): S
    decreases |data|
  {
    if |data| < 64 then s else Fold(f, f(s, data[..64]), data[64..])
  }

  lemma {:induction false} FoldConcat<S>(f: (S, Block) -> S, s: S, x: seq<byte>, y: seq<byte>)
    requires |x| % 64 == 0
    ensures Fold(f, s, x + y) == Fold(f, Fold(f, s, x), y)
    decreases |x|
  {
    if |x| < 64 {
      assert x + y == y;
    } else {
      assert (x + y)[..64] == x[..64] && (x + y)[64..] == x[64..] + y;
      FoldConcat(f, f(s, x[..64]), x[64..], y);
    }
  }

  /** One more block of a message. */
  lemma FoldNext<S>(f: (S, Block) -> S, s: S, m: seq<byte>, p: nat)
    requires p % 64 == 0 && p + 64 <= |m|
    ensures Fold(f, s, m[..p + 64]) == f(Fold(f, s, m[..p]), m[p..p + 64])
  {
    var block := m[p..p + 64];
    assert m[..p + 64] == m[..p] + block;
    FoldConcat(f, s, m[..p], block);
    assert block[..64] == block && block[64..] == [];
  }

  /** How much of a message is in whole blocks. */
  function Whole(length: nat): (r: nat)
    ensures r <= length
  {
    length - length % 64
  }

  lemma WholeIs(length: nat, p: nat)
    requires p % 64 == 0 && p <= length < p + 64
    ensures Whole(length) == p && length % 64 == length - p
  {}

  function Zeros(n: nat): (r: seq<byte>)
    ensures |r| == n
  {
    seq(n, _ => 0)
  }

  // ----- padding: section 5.1.1 of FIPS 180-4, section 3.1 of RFC 1321 -----

  predicate Aligned(length: nat, k: nat) {
    (length + 1 + k) % 64 == 56
  }

  /** The number of zero bytes between the one bit and the length. */
  function ZeroCount(length: nat): nat {
    if length % 64 < 56 then 55 - length % 64 else 119 - length % 64
  }

  /** It is the least number that makes the length 56 modulo 64 bytes, 448 modulo 512 bits. */
  lemma ZeroCountIsLeast(length: nat)
    ensures Aligned(length, ZeroCount(length))
    ensures forall k: nat :: k < ZeroCount(length) ==> !Aligned(length, k)
  {}

  /** With the one bit, the zeros and eight bytes of length, a padded message is made of whole blocks. */
  lemma PaddedLength(length: nat)
    ensures (length + (1 + ZeroCount(length)) + 8) % 64 == 0
  {
    var q := length / 64;
    ModIs(length + (1 + ZeroCount(length)) + 8, 0, if length % 64 < 56 then q + 1 else q + 2, 64);
  }

  // ----- the buffer -----

  /** memcpy */
  method CopyInto(target: array<byte>, start: nat, source: seq<byte>)
    requires start + |source| <= target.Length
    modifies target
    ensures target[..] == old(target[..start]) + source + old(target[start + |source|..])
  {
    for k := 0 to |source|
      invariant target[..] == old(target[..start]) + source[..k] + old(target[start + k..])
    {
      target[start + k] := source[k];
    }
  }

  /** The rest of a chunk is appended to what is in the buffer. */
  method Keep(buffer: array<byte>, index: nat, rest: seq<byte>, ghost m: seq<byte>, ghost p: nat)
    requires buffer.Length == 64 && p % 64 == 0 && p + index + |rest| == |m| < p + 64
    requires buffer[..index] == m[p..p + index] && rest == m[p + index..]
    modifies buffer
    ensures p == Whole(|m|) && buffer[..|m| % 64] == m[p..]
  {
    CopyInto(buffer, index, rest);
    WholeIs(|m|, p);
    assert m[p..] == m[p..p + index] + m[p + index..];
  }

  lemma Extended(m: seq<byte>, chunk: seq<byte>, p: nat)
    requires p <= |m|
    ensures (m + chunk)[..p] == m[..p] && (m + chunk)[p..|m|] == m[p..] && (m + chunk)[|m|..] == chunk
  {}

  /** A piece of a chunk is the same piece of the message. */
  lemma PieceOf(m: seq<byte>, base: nat, chunk: seq<byte>, i: nat, j: nat)
    requires base <= |m| && m[base..] == chunk && i <= j <= |chunk|
    ensures m[base + i..base + j] == chunk[i..j]
  {
    var inMessage, inChunk := m[base + i..base + j], chunk[i..j];
    assert |inMessage| == j - i == |inChunk|;
    assert forall k :: 0 <= k < j - i ==> inMessage[k] == m[base + i + k] == m[base..][i + k] == inChunk[k];
    assert inMessage == inChunk;
  }

  // ----- counting -----

  const TWO64: int := 0x1_0000_0000_0000_0000

  lemma MultipleGrows(d: int, m: nat)
    ensures d >= 1 ==> d * m >= m
    ensures d <= -1 ==> d * m <= 0 - m
  {}

  lemma ModIs(x: int, r: int, k: int, m: nat)
    requires 0 <= r < m && x == r + k * m
    ensures x % m == r
  {
    var q, p := x / m, x % m;
    assert (q - k) * m == r - p;
    MultipleGrows(q - k, m);
  }

  lemma ModDiffers(x: nat, y: nat, m: nat)
    requires 0 < y - x < m
    ensures x % m != y % m
  {
    var d := y / m - x / m;
    MultipleGrows(d, m);
    assert d * m == y / m * m - x / m * m;
  }

  lemma DivShift(w: nat, k: nat, d: nat)
    requires d > 0
    ensures (w + k * d) / d == w / d + k
  {
    var q := (w + k * d) / d;
    assert (q - k - w / d) * d == w % d - (w + k * d) % d;
    MultipleGrows(q - k - w / d, d);
  }

  lemma LowByte(w: nat, k: nat, d: nat)
    requires d > 0
    ensures (w + k * 256 * d) / d % 256 == w / d % 256
  {
    DivShift(w, k * 256, d);
    ModIs(w / d + k * 256, w / d % 256, w / d / 256 + k, 256);
  }

  /** A word that agrees with n modulo 2^32 has the same four low bytes. */
  lemma LowBytes(w: word, n: nat)
    requires n % MODULUS == w
    ensures w % 256 == n % 256 && w / 0x100 % 256 == n / 0x100 % 256
    ensures w / 0x1_0000 % 256 == n / 0x1_0000 % 256 && w / 0x100_0000 % 256 == n / 0x100_0000 % 256
  {
    var q := n / MODULUS;
    assert n == w + q * MODULUS;
    LowByte(w, q * 0x100_0000, 1);
    LowByte(w, q * 0x1_0000, 0x100);
    LowByte(w, q * 0x100, 0x1_0000);
    LowByte(w, q, 0x100_0000);
  }

  lemma HighBytes(n: nat)
    ensures n / 0x1_0000_0000 / 0x100 == n / 0x100_0000_0000
    ensures n / 0x1_0000_0000 / 0x1_0000 == n / 0x1_0000_0000_0000
    ensures n / 0x1_0000_0000 / 0x100_0000 == n / 0x100_0000_0000_0000
  {}

  /** The low and the high word of a number modulo 2^64. */
  lemma TwoWords(n: nat, low: word, high: word)
    requires n % TWO64 == high * MODULUS + low
    ensures n % MODULUS == low && n / MODULUS % MODULUS == high
  {
    var q := n / TWO64;
    assert n == q * TWO64 + high * MODULUS + low;
    ModIs(n, low, q * MODULUS + high, MODULUS);
    assert n / MODULUS == q * MODULUS + high;
    ModIs(n / MODULUS, high, q, MODULUS);
  }

  lemma FourBytes(w: word)
    ensures w / 0x100_0000 % 256 * 0x100_0000 + w / 0x1_0000 % 256 * 0x1_0000 + w / 0x100 % 256 * 0x100 + w % 256 == w
  {
    assert w / 0x100 / 0x100 == w / 0x1_0000 && w / 0x1_0000 / 0x100 == w / 0x100_0000 < 256;
  }

  lemma WordsJoin(n: nat)
    ensures n / MODULUS % MODULUS * MODULUS + n % MODULUS == n % TWO64
  {
    var low, high := n % MODULUS, n / MODULUS;
    var q := high / MODULUS;
    assert n == high * MODULUS + low && high == q * MODULUS + high % MODULUS;
    assert q * MODULUS * MODULUS == q * TWO64;
    ModIs(n, high % MODULUS * MODULUS + low, q, TWO64);
  }

  // ----- addition -----

  lemma SumOrder(r: word, f: word, e: word, k: word, w: word)
    ensures Add(Add(e, Add(Add(f, w), k)), r) == Add(Add(Add(Add(r, f), e), k), w)
  {
    hide Add;
    calc {
      Add(Add(e, Add(Add(f, w), k)), r);
      { AddCommutes(Add(e, Add(Add(f, w), k)), r); AddAssociates(r, e, Add(Add(f, w), k)); }
      Add(Add(r, e), Add(Add(f, w), k));
      { AddAssociates(f, w, k); AddCommutes(w, k); }
      Add(Add(r, e), Add(f, Add(k, w)));
      { AddAssociates(Add(r, e), f, Add(k, w)); }
      Add(Add(Add(r, e), f), Add(k, w));
      { AddAssociates(r, e, f); AddCommutes(e, f); AddAssociates(r, f, e); }
      Add(Add(Add(r, f), e), Add(k, w));
      { AddAssociates(Add(Add(r, f), e), k, w); }
      Add(Add(Add(Add(r, f), e), k), w);
    }
  }
}
