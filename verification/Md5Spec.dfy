/** The MD5 message digest as RFC 1321 defines it. */
module Md5Spec {
  import opened Words
  import opened BlockStream

  // ----- section 3.4: auxiliary functions -----

  function F(x: word, y: word, z: word): word { Or(And(x, y), And(Not(x), z)) }

  function G(x: word, y: word, z: word): word { Or(And(x, z), And(y, Not(z))) }

  function H(x: word, y: word, z: word): word { Xor(Xor(x, y), z) }

  function I(x: word, y: word, z: word): word { Xor(y, Or(x, Not(z))) }

  function RoundFunction(i: nat, x: word, y: word, z: word): word {
    if i < 16 then F(x, y, z) else if i < 32 then G(x, y, z) else if i < 48 then H(x, y, z) else I(x, y, z)
  }

  /** Which word of the block step i reads. */
  function Index(i: nat): (k: nat)
    ensures k < 16
  {
    if i < 16 then i % 16 else if i < 32 then (5 * i + 1) % 16 else if i < 48 then (3 * i + 5) % 16 else 7 * i % 16
  }

  /** By how many bits step i rotates. */
  function Amount(i: nat): (s: nat)
    ensures 0 < s < 32
  {
    var r := i % 4;
    if i < 16 then 7 + 5 * r
    else if i < 32 then if r == 0 then 5 else if r == 1 then 9 else if r == 2 then 14 else 20
    else if i < 48 then if r == 0 then 4 else if r == 1 then 11 else if r == 2 then 16 else 23
    else if r == 0 then 6 else if r == 1 then 10 else if r == 2 then 15 else 21
  }

  /** The table T, from index 0. */
  function T(i: nat): word {
    match i
    case 0 => 0xd76aa478
    case 1 => 0xe8c7b756
    case 2 => 0x242070db
    case 3 => 0xc1bdceee
    case 4 => 0xf57c0faf
    case 5 => 0x4787c62a
    case 6 => 0xa8304613
    case 7 => 0xfd469501
    case 8 => 0x698098d8
    case 9 => 0x8b44f7af
    case 10 => 0xffff5bb1
    case 11 => 0x895cd7be
    case 12 => 0x6b901122
    case 13 => 0xfd987193
    case 14 => 0xa679438e
    case 15 => 0x49b40821
    case 16 => 0xf61e2562
    case 17 => 0xc040b340
    case 18 => 0x265e5a51
    case 19 => 0xe9b6c7aa
    case 20 => 0xd62f105d
    case 21 => 0x02441453
    case 22 => 0xd8a1e681
    case 23 => 0xe7d3fbc8
    case 24 => 0x21e1cde6
    case 25 => 0xc33707d6
    case 26 => 0xf4d50d87
    case 27 => 0x455a14ed
    case 28 => 0xa9e3e905
    case 29 => 0xfcefa3f8
    case 30 => 0x676f02d9
    case 31 => 0x8d2a4c8a
    case 32 => 0xfffa3942
    case 33 => 0x8771f681
    case 34 => 0x6d9d6122
    case 35 => 0xfde5380c
    case 36 => 0xa4beea44
    case 37 => 0x4bdecfa9
    case 38 => 0xf6bb4b60
    case 39 => 0xbebfbc70
    case 40 => 0x289b7ec6
    case 41 => 0xeaa127fa
    case 42 => 0xd4ef3085
    case 43 => 0x04881d05
    case 44 => 0xd9d4d039
    case 45 => 0xe6db99e5
    case 46 => 0x1fa27cf8
    case 47 => 0xc4ac5665
    case 48 => 0xf4292244
    case 49 => 0x432aff97
    case 50 => 0xab9423a7
    case 51 => 0xfc93a039
    case 52 => 0x655b59c3
    case 53 => 0x8f0ccc92
    case 54 => 0xffeff47d
    case 55 => 0x85845dd1
    case 56 => 0x6fa87e4f
    case 57 => 0xfe2ce6e0
    case 58 => 0xa3014314
    case 59 => 0x4e0811a1
    case 60 => 0xf7537e82
    case 61 => 0xbd3af235
    case 62 => 0x2ad7d2bb
    case _ => 0xeb86d391
  }

  // ----- the steps -----

  datatype State = State(a: word, b: word, c: word, d: word)

  const INITIAL_STATE := State(0x67452301, 0xefcdab89, 0x98badcfe, 0x10325476)

  /** The i-th word of a block, least significant byte first. */
  function X(block: Block, i: nat): word
    requires i < 16
  {
    block[4 * i + 3] as int * 0x100_0000 + block[4 * i + 2] as int * 0x1_0000 + block[4 * i + 1] as int * 0x100 +
    block[4 * i]
  }

  /** a = b + ((a + f(b, c, d) + X[k] + T[i]) <<< s), after which the four variables change places. */
  function Step(s: State, i: nat, x: word, t: word): State {
    State(s.d, Add(s.b, RotateLeft(Add(Add(Add(s.a, RoundFunction(i, s.b, s.c, s.d)), x), t), Amount(i))), s.b, s.c)
  }

  /** The variables after i of the 64 steps. */
  function Steps(s: State, block: Block, i: nat): State {
    if i == 0 then s else Step(Steps(s, block, i - 1), i - 1, X(block, Index(i - 1)), T(i - 1))
  }

  function Plus(s: State, r: State): State {
    State(Add(s.a, r.a), Add(s.b, r.b), Add(s.c, r.c), Add(s.d, r.d))
  }

  function Compress(s: State, block: Block): State {
    Plus(Steps(s, block, 64), s)
  }

  /** The state after all whole blocks of the data. */
  function HashBlocks(s: State, data: seq<byte>): State {
    Fold(Compress, s, data)
  }

  /** One more block of a message. */
  lemma NextBlock(s: State, m: seq<byte>, p: nat)
    requires p % 64 == 0 && p + 64 <= |m|
    ensures HashBlocks(s, m[..p + 64]) == Compress(HashBlocks(s, m[..p]), m[p..p + 64])
  {
    hide Compress;
    FoldNext(Compress, s, m, p);
  }

  // ----- sections 3.1 and 3.2: padding and length -----

  /** A number modulo 2^64 in eight bytes, least significant first. */
  function LittleEndian64(n: nat): (r: seq<byte>)
    ensures |r| == 8
  {
    [ n % 256, n / 0x100 % 256, n / 0x1_0000 % 256, n / 0x100_0000 % 256,
      n / 0x1_0000_0000 % 256, n / 0x100_0000_0000 % 256, n / 0x1_0000_0000_0000 % 256, n / 0x100_0000_0000_0000 % 256 ]
  }

  function Pad(m: seq<byte>): (r: seq<byte>)
    ensures |r| % 64 == 0
  {
    PaddedLength(|m|);
    m + ([0x80] + Zeros(ZeroCount(|m|))) + LittleEndian64(8 * |m|)
  }

  // ----- section 3.5: output -----

  function WordBytes(w: word): (r: seq<byte>)
    ensures |r| == 4
  {
    [ w % 256, w / 0x100 % 256, w / 0x1_0000 % 256, w / 0x100_0000 % 256 ]
  }

  /** What is written as a word is read as that word. */
  lemma WordRead(block: Block, i: nat, w: word)
    requires i < 16 && block[4 * i..4 * i + 4] == WordBytes(w)
    ensures X(block, i) == w
  {
    var bytes := block[4 * i..4 * i + 4];
    assert block[4 * i] == bytes[0] && block[4 * i + 1] == bytes[1];
    assert block[4 * i + 2] == bytes[2] && block[4 * i + 3] == bytes[3];
    FourBytes(w);
  }

  function StateBytes(s: State): (r: seq<byte>)
    ensures |r| == 16
  {
    WordBytes(s.a) + WordBytes(s.b) + WordBytes(s.c) + WordBytes(s.d)
  }

  /** The digest, read as words, is the state. */
  lemma DigestRead(s: State, block: Block)
    requires block[..16] == StateBytes(s)
    ensures X(block, 0) == s.a && X(block, 1) == s.b && X(block, 2) == s.c && X(block, 3) == s.d
  {
    hide X, WordBytes;
    var bytes := StateBytes(s);
    assert bytes[0..4] == WordBytes(s.a) && bytes[4..8] == WordBytes(s.b);
    assert bytes[8..12] == WordBytes(s.c) && bytes[12..16] == WordBytes(s.d);
    assert block[0..4] == bytes[0..4] && block[4..8] == bytes[4..8];
    assert block[8..12] == bytes[8..12] && block[12..16] == bytes[12..16];
    WordRead(block, 0, s.a);
    WordRead(block, 1, s.b);
    WordRead(block, 2, s.c);
    WordRead(block, 3, s.d);
  }

  /** The length, read as two words, is the number of bits modulo 2^64. */
  lemma LengthRead(block: Block, n: nat)
    requires block[56..] == LittleEndian64(n)
    ensures X(block, 14) + X(block, 15) * 0x1_0000_0000 == n % 0x1_0000_0000_0000_0000
  {
    hide X;
    var low: word, high: word := n % MODULUS, n / MODULUS % MODULUS;
    LengthBytes(n, low, high);
    assert block[56..60] == LittleEndian64(n)[..4] && block[60..64] == LittleEndian64(n)[4..];
    WordRead(block, 14, low);
    WordRead(block, 15, high);
    WordsJoin(n);
  }

  lemma LengthBytes(n: nat, low: word, high: word)
    requires low == n % MODULUS && high == n / MODULUS % MODULUS
    ensures LittleEndian64(n) == WordBytes(low) + WordBytes(high)
  {
    LowBytes(low, n);
    LowBytes(high, n / MODULUS);
    HighBytes(n);
  }

  function Digest(m: seq<byte>): seq<byte> {
    StateBytes(HashBlocks(INITIAL_STATE, Pad(m)))
  }
}
