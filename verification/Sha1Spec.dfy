/** The SHA-1 hash function as FIPS 180-4 defines it. */
module Sha1Spec {
  import opened Words
  import opened BlockStream

  // ----- section 4.1.1: functions -----

  function Ch(x: word, y: word, z: word): word { Xor(And(x, y), And(Not(x), z)) }

  function Parity(x: word, y: word, z: word): word { Xor(Xor(x, y), z) }

  function Maj(x: word, y: word, z: word): word { Xor(Xor(And(x, y), And(x, z)), And(y, z)) }

  function F(t: nat, x: word, y: word, z: word): word {
    if t < 20 then Ch(x, y, z) else if t < 40 then Parity(x, y, z) else if t < 60 then Maj(x, y, z) else Parity(x, y, z)
  }

  // ----- section 4.2.1: constants -----

  function K(t: nat): word {
    if t < 20 then 0x5A827999 else if t < 40 then 0x6ED9EBA1 else if t < 60 then 0x8F1BBCDC else 0xCA62C1D6
  }

  // ----- section 6.1.2: the hash computation -----

  datatype State = State(a: word, b: word, c: word, d: word, e: word)

  const INITIAL_STATE := State(0x67452301, 0xEFCDAB89, 0x98BADCFE, 0x10325476, 0xC3D2E1F0)

  /** The i-th word of a block, most significant byte first. */
  function BlockWord(block: Block, i: nat): word
    requires i < 16
  {
    block[4 * i] as int * 0x100_0000 + block[4 * i + 1] as int * 0x1_0000 + block[4 * i + 2] as int * 0x100 +
    block[4 * i + 3]
  }

  /** The message schedule W_t, for every t. */
  function W(block: Block, t: nat): word {
    if t < 16 then BlockWord(block, t)
    else RotateLeft(Xor(Xor(Xor(W(block, t - 3), W(block, t - 8)), W(block, t - 14)), W(block, t - 16)), 1)
  }

  /** One of the 80 steps: T, and the shift of the working variables. */
  function Step(s: State, t: nat, w: word): State {
    State(Add(Add(Add(Add(RotateLeft(s.a, 5), F(t, s.b, s.c, s.d)), s.e), K(t)), w),
          s.a, RotateLeft(s.b, 30), s.c, s.d)
  }

  /** The working variables after t of the 80 steps. */
  function Steps(s: State, block: Block, t: nat): State {
    if t == 0 then s else Step(Steps(s, block, t - 1), t - 1, W(block, t - 1))
  }

  function Plus(s: State, r: State): State {
    State(Add(s.a, r.a), Add(s.b, r.b), Add(s.c, r.c), Add(s.d, r.d), Add(s.e, r.e))
  }

  function Compress(s: State, block: Block): State {
    Plus(s, Steps(s, block, 80))
  }

  /** The state after all whole blocks of the data. */
  function HashBlocks(s: State, data: seq<byte>): State {
    Fold(Compress, s, data)
  }

  /** One more block of a message. */
  lemma NextBlock(s: State, m: seq<byte>, p: nat)
    requires p % 64 == 0 && p + 64 <= |m|
    ensures HashBlocks(s, m[..p + 64]) == Compress(HashBlocks(s, m[..p]), m[p..p + 64])
  {
    hide Compress;
    FoldNext(Compress, s, m, p);
  }

  // ----- section 5.1.1: padding -----

  /** A number modulo 2^64 in eight bytes, most significant first. */
  function BigEndian64(n: nat): (r: seq<byte>)
    ensures |r| == 8
  {
    [ n / 0x100_0000_0000_0000 % 256, n / 0x1_0000_0000_0000 % 256, n / 0x100_0000_0000 % 256, n / 0x1_0000_0000 % 256,
      n / 0x100_0000 % 256, n / 0x1_0000 % 256, n / 0x100 % 256, n % 256 ]
  }

  function Pad(m: seq<byte>): (r: seq<byte>)
    ensures |r| % 64 == 0
  {
    PaddedLength(|m|);
    m + ([0x80] + Zeros(ZeroCount(|m|))) + BigEndian64(8 * |m|)
  }

  // ----- the digest -----

  function WordBytes(w: word): (r: seq<byte>)
    ensures |r| == 4
  {
    [ w / 0x100_0000 % 256, w / 0x1_0000 % 256, w / 0x100 % 256, w % 256 ]
  }

  /** What is written as a word is read as that word. */
  lemma WordRead(block: Block, i: nat, w: word)
    requires i < 16 && block[4 * i..4 * i + 4] == WordBytes(w)
    ensures BlockWord(block, i) == w
  {
    var bytes := block[4 * i..4 * i + 4];
    assert block[4 * i] == bytes[0] && block[4 * i + 1] == bytes[1];
    assert block[4 * i + 2] == bytes[2] && block[4 * i + 3] == bytes[3];
    FourBytes(w);
  }

  function Encoded(words: seq<word>): (r: seq<byte>)
    ensures |r| == 4 * |words|
  {
    if words == [] then [] else Encoded(words[..|words| - 1]) + WordBytes(words[|words| - 1])
  }

  function StateBytes(s: State): (r: seq<byte>)
    ensures |r| == 20
  {
    Encoded([s.a, s.b, s.c, s.d, s.e])
  }

  /** The digest, read as words, is the state. */
  lemma DigestRead(s: State, block: Block)
    requires block[..20] == StateBytes(s)
    ensures BlockWord(block, 0) == s.a && BlockWord(block, 1) == s.b && BlockWord(block, 2) == s.c
    ensures BlockWord(block, 3) == s.d && BlockWord(block, 4) == s.e
  {
    hide BlockWord, WordBytes;
    var words := [s.a, s.b, s.c, s.d, s.e];
    EncodedAt(words, 0);
    EncodedAt(words, 1);
    EncodedAt(words, 2);
    EncodedAt(words, 3);
    EncodedAt(words, 4);
    var bytes := Encoded(words);
    assert block[0..4] == bytes[0..4] && block[4..8] == bytes[4..8] && block[8..12] == bytes[8..12];
    assert block[12..16] == bytes[12..16] && block[16..20] == bytes[16..20];
    WordRead(block, 0, s.a);
    WordRead(block, 1, s.b);
    WordRead(block, 2, s.c);
    WordRead(block, 3, s.d);
    WordRead(block, 4, s.e);
  }

  lemma {:induction false} EncodedAt(words: seq<word>, k: nat)
    requires k < |words|
    ensures Encoded(words)[4 * k..4 * k + 4] == WordBytes(words[k])
  {
    var init := words[..|words| - 1];
    if k < |init| {
      EncodedAt(init, k);
      assert Encoded(words)[4 * k..4 * k + 4] == Encoded(init)[4 * k..4 * k + 4];
    }
  }

  /** The length, read as two words, is the number of bits modulo 2^64. */
  lemma LengthRead(block: Block, n: nat)
    requires block[56..] == BigEndian64(n)
    ensures BlockWord(block, 14) * 0x1_0000_0000 + BlockWord(block, 15) == n % 0x1_0000_0000_0000_0000
  {
    hide BlockWord;
    var low: word, high: word := n % MODULUS, n / MODULUS % MODULUS;
    LengthBytes(n, low, high);
    assert block[56..60] == BigEndian64(n)[..4] && block[60..64] == BigEndian64(n)[4..];
    WordRead(block, 14, high);
    WordRead(block, 15, low);
    WordsJoin(n);
  }

  lemma LengthBytes(n: nat, low: word, high: word)
    requires low == n % MODULUS && high == n / MODULUS % MODULUS
    ensures BigEndian64(n) == WordBytes(high) + WordBytes(low)
  {
    LowBytes(low, n);
    LowBytes(high, n / MODULUS);
    HighBytes(n);
  }

  function Digest(m: seq<byte>): seq<byte> {
    StateBytes(HashBlocks(INITIAL_STATE, Pad(m)))
  }
}
