/** The streaming SHA-1 hasher of sha1_php.c. */
module Sha1 {
  import opened Words
  import opened BlockStream
  import opened Sequences
  import opened Sha1Spec

  // ----- the macros F, G, H, I and the words of a block -----

  function MacroF(x: word, y: word, z: word): word { Xor(z, And(x, Xor(y, z))) }

  function MacroG(x: word, y: word, z: word): word { Xor(Xor(x, y), z) }

  function MacroH(x: word, y: word, z: word): word { Or(And(x, y), And(z, Or(x, y))) }

  /** The optimised F is Ch. */
  lemma MacroFIsCh(x: word, y: word, z: word)
    ensures MacroF(x, y, z) == Ch(x, y, z)
  {
    Pow2Word();
    SelectBits(x, y, z, 32);
  }

  /** The optimised H is Maj. */
  lemma MacroHIsMaj(x: word, y: word, z: word)
    ensures MacroH(x, y, z) == Maj(x, y, z)
  {
    Pow2Word();
    MajorityBits(x, y, z, 32);
  }

  function RoundFunction(t: nat, x: word, y: word, z: word): word {
    if t < 20 then MacroF(x, y, z) else if t < 40 then MacroG(x, y, z)
    else if t < 60 then MacroH(x, y, z) else MacroG(x, y, z)
  }

  lemma RoundFunctionIsF(t: nat, x: word, y: word, z: word)
    ensures RoundFunction(t, x, y, z) == F(t, x, y, z)
  {
    MacroFIsCh(x, y, z);
    MacroHIsMaj(x, y, z);
  }

  /** Four bytes put together by shifts and ors, as SHA1Decode does. */
  function Assemble(b0: byte, b1: byte, b2: byte, b3: byte): word {
    Or(Or(Or(b3, ShiftLeft(b2, 8)), ShiftLeft(b1, 16)), ShiftLeft(b0, 24))
  }

  lemma AssembleIsSum(b0: byte, b1: byte, b2: byte, b3: byte)
    ensures Assemble(b0, b1, b2, b3) == b0 as int * 0x100_0000 + b1 as int * 0x1_0000 + b2 as int * 0x100 + b3
  {
    hide BitOr;
    assert Pow2(8) == 0x100;
    assert Pow2(16) == 0x1_0000;
    assert Pow2(24) == 0x100_0000;
    OrIsPlus(b2, b3, 8);
    OrIsPlus(b1, b2 as int * 0x100 + b3, 16);
    OrIsPlus(b0, b1 as int * 0x1_0000 + b2 as int * 0x100 + b3, 24);
  }

  /** The 16 words of the buffer are the last 16 words of the schedule before word n. */
  ghost predicate Window(x: seq<word>, block: Block, n: nat) {
    |x| == 16 && forall j: nat :: n - 16 <= j < n ==> x[j % 16] == W(block, j)
  }

  lemma FirstWindow(x: seq<word>, block: Block)
    requires |x| == 16 && forall k :: 0 <= k < 16 ==> x[k] == BlockWord(block, k)
    ensures Window(x, block, 16)
  {
    hide BlockWord;
    forall k: nat | k < 16 ensures x[k % 16] == W(block, k) {}
  }

  method Decode(x: array<word>, block: Block)
    requires x.Length == 16
    modifies x
    ensures Window(x[..], block, 16)
  {
    hide Assemble, W, Window;
    var i, j := 0, 0;
    while j < 64
      invariant 0 <= i <= 16 && j == 4 * i
      invariant forall k :: 0 <= k < i ==> x[k] == BlockWord(block, k)
    {
      AssembleIsSum(block[j], block[j + 1], block[j + 2], block[j + 3]);
      x[i] := Assemble(block[j], block[j + 1], block[j + 2], block[j + 3]);
      i, j := i + 1, j + 4;
    }
    FirstWindow(x[..], block);
  }

  // ----- SHA1Transform -----

  lemma Schedule(block: Block, t: nat)
    requires t >= 16
    ensures W(block, t) ==
      RotateLeft(Xor(Xor(Xor(W(block, t - 3), W(block, t - 8)), W(block, t - 14)), W(block, t - 16)), 1)
  {}

  /** The macro W: schedule word t goes over word t - 16 in the circular buffer. */
  method NextWord(x: array<word>, t: nat, ghost block: Block) returns (w: word)
    requires 16 <= t && x.Length == 16 && Window(x[..], block, t)
    modifies x
    ensures Window(x[..], block, t + 1) && w == W(block, t)
  {
    hide W, Xor, RotateLeft;
    ghost var before := x[..];
    assert before[(t - 3) % 16] == W(block, t - 3) && before[(t - 8) % 16] == W(block, t - 8);
    assert before[(t - 14) % 16] == W(block, t - 14);
    assert before[t % 16] == W(block, t - 16) by { assert (t - 16) % 16 == t % 16; }
    var tmp := Xor(Xor(Xor(x[(t - 3) % 16], x[(t - 8) % 16]), x[(t - 14) % 16]), x[t % 16]);
    w := RotateLeft(tmp, 1);
    Schedule(block, t);
    x[t % 16] := w;
    WindowMoves(before, x[..], block, t, w);
  }

  lemma WindowMoves(before: seq<word>, after: seq<word>, block: Block, t: nat, w: word)
    requires 16 <= t && Window(before, block, t) && w == W(block, t) && after == before[t % 16 := w]
    ensures Window(after, block, t + 1)
  {
    hide W;
    forall j: nat | t - 15 <= j < t + 1 ensures after[j % 16] == W(block, j) {
      if j < t {
        assert j % 16 != t % 16;
        assert before[j % 16] == W(block, j);
      }
    }
  }

  /** How far the buffer has got when step t is due. */
  function Ahead(t: nat): nat {
    if t < 16 then 16 else t
  }

  /** The word for step t: from the block as long as it lasts, then from the macro W. */
  method Word(x: array<word>, t: nat, ghost block: Block) returns (w: word)
    requires x.Length == 16 && Window(x[..], block, Ahead(t))
    modifies x
    ensures Window(x[..], block, Ahead(t + 1)) && w == W(block, t)
  {
    if t < 16 {
      assert x[..][t % 16] == W(block, t);
      w := x[t];
    } else {
      w := NextWord(x, t, block);
    }
  }

  /** The constant in the macro of the round. */
  function RoundConstant(t: nat): word {
    if t < 20 then 0x5A827999 else if t < 40 then 0x6ED9EBA1 else if t < 60 then 0x8F1BBCDC else 0xCA62C1D6
  }

  /** The macros FF, GG, HH and II: e and b are updated, and the caller changes the roles. */
  method Mix(t: nat, a: word, b: word, c: word, d: word, e: word, w: word) returns (e': word, b': word)
    ensures State(e', a, b', c, d) == Step(State(a, b, c, d, e), t, w)
  {
    hide Add, RotateLeft, RoundFunction, F;
    e' := Add(e, Add(Add(RoundFunction(t, b, c, d), w), RoundConstant(t)));
    e' := Add(e', RotateLeft(a, 5));
    b' := RotateLeft(b, 30);
    RoundFunctionIsF(t, b, c, d);
    SumOrder(RotateLeft(a, 5), F(t, b, c, d), e, K(t), w);
  }

  /** Five steps in a row, after which every variable has its first role again. */
  method Five(t: nat, s: State, x: array<word>, ghost start: State, ghost block: Block) returns (r: State)
    requires x.Length == 16 && Window(x[..], block, Ahead(t)) && s == Steps(start, block, t)
    modifies x
    ensures Window(x[..], block, Ahead(t + 5)) && r == Steps(start, block, t + 5)
  {
    var State(a, b, c, d, e) := s;
    var w := Word(x, t, block);
    e, b := Mix(t, a, b, c, d, e, w);
    w := Word(x, t + 1, block);
    d, a := Mix(t + 1, e, a, b, c, d, w);
    w := Word(x, t + 2, block);
    c, e := Mix(t + 2, d, e, a, b, c, w);
    w := Word(x, t + 3, block);
    b, d := Mix(t + 3, c, d, e, a, b, w);
    w := Word(x, t + 4, block);
    a, c := Mix(t + 4, b, c, d, e, a, w);
    r := State(a, b, c, d, e);
    FiveSteps(start, block, t);
  }

  lemma FiveSteps(start: State, block: Block, t: nat)
    ensures var s1 := Step(Steps(start, block, t), t, W(block, t));
      var s2 := Step(s1, t + 1, W(block, t + 1));
      var s3 := Step(s2, t + 2, W(block, t + 2));
      var s4 := Step(s3, t + 3, W(block, t + 3));
      Steps(start, block, t + 5) == Step(s4, t + 4, W(block, t + 4))
  {
    assert Steps(start, block, t + 1) == Step(Steps(start, block, t), t, W(block, t));
    assert Steps(start, block, t + 2) == Step(Steps(start, block, t + 1), t + 1, W(block, t + 1));
    assert Steps(start, block, t + 3) == Step(Steps(start, block, t + 2), t + 2, W(block, t + 2));
    assert Steps(start, block, t + 4) == Step(Steps(start, block, t + 3), t + 3, W(block, t + 3));
  }

  ghost function StateIn(state: array<word>): State
    requires state.Length == 5
    reads state
  {
    State(state[0], state[1], state[2], state[3], state[4])
  }

  lemma NoSteps(start: State, block: Block)
    ensures Steps(start, block, 0) == start
  {}

  /** The 80 steps, in four rounds. */
  method EightySteps(start: State, block: Block) returns (s: State)
    ensures s == Steps(start, block, 80)
  {
    hide Step, Steps, W, Window;
    var x := new word[16];
    Decode(x, block);
    s := start;
    NoSteps(start, block);
    // Round 1
    s := Five(0, s, x, start, block);
    s := Five(5, s, x, start, block);
    s := Five(10, s, x, start, block);
    s := Five(15, s, x, start, block);
    // Round 2
    s := Five(20, s, x, start, block);
    s := Five(25, s, x, start, block);
    s := Five(30, s, x, start, block);
    s := Five(35, s, x, start, block);
    // Round 3
    s := Five(40, s, x, start, block);
    s := Five(45, s, x, start, block);
    s := Five(50, s, x, start, block);
    s := Five(55, s, x, start, block);
    // Round 4
    s := Five(60, s, x, start, block);
    s := Five(65, s, x, start, block);
    s := Five(70, s, x, start, block);
    s := Five(75, s, x, start, block);
  }

  method Transform(state: array<word>, block: Block)
    requires state.Length == 5
    modifies state
    ensures StateIn(state) == Compress(old(StateIn(state)), block)
  {
    hide Steps, Add;
    var s := EightySteps(State(state[0], state[1], state[2], state[3], state[4]), block);
    state[0] := Add(state[0], s.a);
    state[1] := Add(state[1], s.b);
    state[2] := Add(state[2], s.c);
    state[3] := Add(state[3], s.d);
    state[4] := Add(state[4], s.e);
  }

  // ----- the bit counter -----

  /** context->count after PHP_SHA1Update has added a chunk of n bytes, low word first. */
  function CountAfter(low: word, high: word, n: nat): (word, word) {
    var added := n % MODULUS * 8 % MODULUS;
    var low' := (low + added) % MODULUS;
    var carried := if low' < added then (high + 1) % MODULUS else high;
    (low', (carried + n % MODULUS / 0x2000_0000) % MODULUS)
  }

  predicate Counts(low: word, high: word, bits: nat) {
    high * MODULUS + low == bits % TWO64
  }

  /** The test after the addition finds the carry. */
  lemma Carry(low: word, added: word)
    ensures var low' := (low + added) % MODULUS;
      low + added == low' + if low' < added then MODULUS else 0
  {}

  lemma Wraps(x: int)
    requires 0 <= x < 2 * MODULUS
    ensures x == x % MODULUS + if x < MODULUS then 0 else MODULUS
  {}

  /** The carry out of the low word and the high bits of the chunk's length reach the high word. */
  lemma CountSum(low: word, high: word, n: nat)
    requires n < MODULUS
    ensures var (low', high') := CountAfter(low, high, n);
      var q := n / 0x2000_0000;
      var c := if low' < n * 8 % MODULUS then 1 else 0;
      var d := (if high + c < MODULUS then 0 else 1) + (if (high + c) % MODULUS + q < MODULUS then 0 else 1);
      high' * MODULUS + low' + d * TWO64 == high * MODULUS + low + 8 * n
  {
    var added, q := n * 8 % MODULUS, n / 0x2000_0000;
    assert n % MODULUS == n;
    assert n * 8 == q * MODULUS + added;
    Carry(low, added);
    var c := if (low + added) % MODULUS < added then 1 else 0;
    Wraps(high + c);
    Wraps((high + c) % MODULUS + q);
  }

  lemma CountStep(low: word, high: word, n: nat, bits: nat)
    requires n < MODULUS && Counts(low, high, bits)
    ensures var (low', high') := CountAfter(low, high, n); Counts(low', high', bits + 8 * n)
  {
    CountSum(low, high, n);
    hide CountAfter;
    var (low', high') := CountAfter(low, high, n);
    var q, c := n / 0x2000_0000, if low' < n * 8 % MODULUS then 1 else 0;
    var d := (if high + c < MODULUS then 0 else 1) + (if (high + c) % MODULUS + q < MODULUS then 0 else 1);
    ModIs(bits + 8 * n, high' * MODULUS + low', bits / TWO64 + d, TWO64);
  }

  /** A chunk of 2^32 bytes or more is counted as if its length were taken modulo 2^32. */
  lemma CountIgnoresHighPart(low: word, high: word, n: nat)
    ensures CountAfter(low, high, n) == CountAfter(low, high, n % MODULUS)
  {
    ModIs(n % MODULUS, n % MODULUS, 0, MODULUS);
  }

  /** So the counter is right exactly for chunks shorter than 2^32 bytes. */
  lemma CountExact(low: word, high: word, n: nat, bits: nat)
    requires n < TWO64 / 8 && Counts(low, high, bits)
    ensures var (low', high') := CountAfter(low, high, n); Counts(low', high', bits + 8 * n) <==> n < MODULUS
  {
    hide CountAfter;
    CountIgnoresHighPart(low, high, n);
    CountStep(low, high, n % MODULUS, bits);
    if n >= MODULUS {
      ModDiffers(bits + 8 * (n % MODULUS), bits + 8 * n, TWO64);
    }
  }

  // ----- the context -----

  /** The loop over whole blocks ends: its 32-bit counter plus 63 never wraps around. */
  predicate ChunkFits(used: nat, n: nat) {
    n < MODULUS && n - (used + n) % 64 < MODULUS - 63
  }

  lemma FitsIsShort(used: nat, n: nat)
    requires ChunkFits(used, n)
    ensures n < MODULUS
  {}

  /** Every chunk of at most 2^32 - 64 bytes fits, whatever is in the buffer. */
  lemma ShortChunkFits(used: nat, n: nat)
    requires n <= MODULUS - 64
    ensures ChunkFits(used, n)
  {}

  /** The guard i + 63 < inputLen of the loop, with its 32-bit sum. */
  predicate MoreBlocks(i: nat, n: nat) {
    (i + 63) % MODULUS < n
  }

  /** Whenever the loop gets to its guard with a chunk that does not fit, the guard holds: the loop does not end. */
  lemma LongChunkNeverEnds(used: nat, n: nat, i: nat)
    requires used < 64 && 64 - used <= n && !ChunkFits(used, n)
    requires i < MODULUS && (used + i) % 64 == 0
    ensures MoreBlocks(i, n) && (used + (i + 64) % MODULUS) % 64 == 0
  {
    NextBlockAligned(used, i);
    if n < MODULUS {
      LastBlockWraps(used, n, i);
    }
  }

  /** Going on by a block, with a sum of 32 bits, stays at the beginning of a block. */
  lemma NextBlockAligned(used: nat, i: nat)
    requires i < MODULUS && (used + i) % 64 == 0
    ensures (used + (i + 64) % MODULUS) % 64 == 0
  {
    var a := (used + i) / 64;
    if i + 64 < MODULUS {
      assert used + (i + 64) % MODULUS == 64 * (a + 1);
    } else {
      assert (i + 64) % MODULUS == i + 64 - MODULUS;
      assert used + (i + 64) % MODULUS == 64 * (a + 1 - 0x400_0000);
    }
  }

  /** Only the sum of 32 bits could end the loop, but it wraps around before. */
  lemma LastBlockWraps(used: nat, n: nat, i: nat)
    requires used < 64 && 64 - used <= n < MODULUS && !ChunkFits(used, n)
    requires i < MODULUS && (used + i) % 64 == 0
    ensures MoreBlocks(i, n)
  {
    var r, a, b := (used + n) % 64, (used + i) / 64, (used + n) / 64;
    assert used + i == 64 * a && used + n == 64 * b + r;
  }

  /** While the guard holds there is a whole block left: the sum does not wrap around. */
  lemma GuardMeansBlock(base: nat, n: nat, i: nat)
    requires i <= n && (base + i) % 64 == 0 && ChunkFits(base % 64, n)
    ensures MoreBlocks(i, n) <==> i + 64 <= n
  {
    var a, b := (base + i) / 64, (base + n) / 64;
    assert base + i == 64 * a && base + n == 64 * b + (base + n) % 64;
    ModIs(base % 64 + n, (base + n) % 64, b - base / 64, 64);
    assert a <= b;
  }

  /** So many bytes of the message are whole blocks, and the guard tells whether another one follows. */
  ghost predicate AtBlock(p: nat, i: nat, n: nat) {
    p % 64 == 0 && i <= n && (MoreBlocks(i, n) <==> i + 64 <= n)
  }

  lemma AtBlockFirst(base: nat, n: nat, i: nat)
    requires i <= n && (base + i) % 64 == 0 && ChunkFits(base % 64, n)
    ensures AtBlock(base + i, i, n)
  {
    hide ChunkFits, MoreBlocks;
    GuardMeansBlock(base, n, i);
  }

  lemma AtBlockNext(base: nat, n: nat, i: nat)
    requires i + 64 <= n && AtBlock(base + i, i, n) && ChunkFits(base % 64, n)
    ensures AtBlock(base + i + 64, i + 64, n)
  {
    hide ChunkFits, MoreBlocks;
    GuardMeansBlock(base, n, i + 64);
  }

  lemma BlockOf(m: seq<byte>, base: nat, input: seq<byte>, i: nat)
    requires base + |input| == |m| && m[base..] == input && i + 64 <= |input| && AtBlock(base + i, i, |input|)
    ensures HashBlocks(INITIAL_STATE, m[..base + i + 64]) ==
      Compress(HashBlocks(INITIAL_STATE, m[..base + i]), input[i..i + 64])
  {
    hide HashBlocks, Compress, MoreBlocks;
    PieceOf(m, base, input, i, i + 64);
    NextBlock(INITIAL_STATE, m, base + i);
  }

  /** for (i = partLen; i + 63 < inputLen; i += 64) */
  method WholeBlocks(state: array<word>, input: seq<byte>, start: nat, ghost m: seq<byte>, ghost base: nat)
    returns (i: nat)
    requires state.Length == 5 && start <= |input| && ChunkFits(base % 64, |input|)
    requires base + |input| == |m| && m[base..] == input && (base + start) % 64 == 0
    requires StateIn(state) == HashBlocks(INITIAL_STATE, m[..base + start])
    modifies state
    ensures i <= |input| < i + 64 && (base + i) % 64 == 0
    ensures StateIn(state) == HashBlocks(INITIAL_STATE, m[..base + i])
  {
    hide HashBlocks, Compress, ChunkFits, MoreBlocks, StateIn, AtBlock;
    i := start;
    AtBlockFirst(base, |input|, i);
    AtBlockMeans(base + i, i, |input|);
    while MoreBlocks(i, |input|)
      invariant i <= |input| && AtBlock(base + i, i, |input|)
      invariant MoreBlocks(i, |input|) <==> i + 64 <= |input|
      invariant StateIn(state) == HashBlocks(INITIAL_STATE, m[..base + i])
      decreases |input| - i
    {
      BlockOf(m, base, input, i);
      Transform(state, input[i..i + 64]);
      AtBlockNext(base, |input|, i);
      i := i + 64;
      AtBlockMeans(base + i, i, |input|);
    }
    AtBlockMeans(base + i, i, |input|);
  }

  lemma AtBlockMeans(p: nat, i: nat, n: nat)
    requires AtBlock(p, i, n)
    ensures p % 64 == 0 && i <= n && (MoreBlocks(i, n) <==> i + 64 <= n)
  {}

  lemma IndexOfCount(low: word, high: word, length: nat)
    requires Counts(low, high, 8 * length)
    ensures low / 8 % 64 == length % 64
  {
    var k := high * 0x80_0000 + 8 * length / TWO64 * 0x80_0000_0000_0000;
    assert length == low / 8 + 64 * k;
    ModIs(length, low / 8 % 64, low / 8 / 64 + k, 64);
  }

  /**
    The first part of an update: when the chunk fills the buffer, the buffer and then the whole blocks
    of the chunk are hashed. What is left goes to the buffer at index.
   */
  method HashFull(state: array<word>, buffer: array<byte>, used: nat, input: seq<byte>,
                  ghost m: seq<byte>, ghost base: nat)
    returns (index: nat, i: nat, ghost p: nat)
    requires state.Length == 5 && buffer.Length == 64 && used == base % 64 && ChunkFits(used, |input|)
    requires base + |input| == |m| && m[base..] == input && buffer[..used] == m[base - used..base]
    requires StateIn(state) == HashBlocks(INITIAL_STATE, m[..base - used])
    modifies state, buffer
    ensures i <= |input| && p + index + |input[i..]| == |m| < p + 64 && p % 64 == 0
    ensures index < 64 && buffer[..index] == m[p..p + index] && input[i..] == m[p + index..]
    ensures StateIn(state) == HashBlocks(INITIAL_STATE, m[..p])
  {
    hide HashBlocks, Compress;
    var room := 64 - used;
    if |input| < room {
      return used, 0, base - used;
    }
    CopyInto(buffer, used, input[..room]);
    ghost var start := base - used;
    assert buffer[..] == m[start..start + 64] by {
      assert m[start..start + 64] == m[start..base] + m[base..][..room];
    }
    NextBlock(INITIAL_STATE, m, start);
    Transform(state, buffer[..]);
    i := WholeBlocks(state, input, room, m, base);
    index, p := 0, base + i;
  }

  const PADDING: seq<byte> := [0x80] + Zeros(63)

  /** The eight bytes taken from the two words of the counter. */
  function CountBytes(low: word, high: word): (r: seq<byte>)
    ensures |r| == 8
  {
    [ high / 0x100_0000 % 256, high / 0x1_0000 % 256, high / 0x100 % 256, high % 256,
      low / 0x100_0000 % 256, low / 0x1_0000 % 256, low / 0x100 % 256, low % 256 ]
  }

  lemma CountBytesAreLength(low: word, high: word, bits: nat)
    requires Counts(low, high, bits)
    ensures CountBytes(low, high) == BigEndian64(bits)
  {
    TwoWords(bits, low, high);
    LowBytes(low, bits);
    LowBytes(high, bits / MODULUS);
    HighBytes(bits);
  }

  /** SHA1Encode */
  method Encode(output: array<byte>, input: array<word>)
    requires output.Length == 4 * input.Length
    modifies output
    ensures output[..] == Encoded(input[..])
  {
    var i, j := 0, 0;
    while j < output.Length
      invariant 0 <= i <= input.Length && j == 4 * i
      invariant output[..j] == Encoded(input[..i])
    {
      output[j] := input[i] / 0x100_0000 % 256;
      output[j + 1] := input[i] / 0x1_0000 % 256;
      output[j + 2] := input[i] / 0x100 % 256;
      output[j + 3] := input[i] % 256;
      assert output[j..j + 4] == WordBytes(input[i]);
      assert output[..j + 4] == output[..j] + output[j..j + 4];
      assert input[..i + 1][..i] == input[..i];
      i, j := i + 1, j + 4;
    }
    assert output[..] == output[..j] && input[..] == input[..i];
  }

  class Context {
    const state: array<word>
    var low: word
    var high: word
    const buffer: array<byte>
    ghost var message: seq<byte>

    ghost predicate Shape() {
      state.Length == 5 && buffer.Length == 64
    }

    ghost predicate Valid()
      reads this, state, buffer
    {
      && Shape()
      && Counts(low, high, 8 * |message|)
      && StateIn(state) == HashBlocks(INITIAL_STATE, message[..Whole(|message|)])
      && buffer[..|message| % 64] == message[Whole(|message|)..]
    }

    constructor ()
      ensures Valid() && message == [] && fresh(state) && fresh(buffer)
    {
      state := new word[5];
      buffer := new byte[64];
      low, high, message := 0, 0, [];
      new;
      Init();
    }

    /** PHP_SHA1Init */
    method Init()
      requires Shape()
      modifies this, state
      ensures Valid() && message == []
    {
      low, high := 0, 0;
      state[0] := 0x67452301;
      state[1] := 0xefcdab89;
      state[2] := 0x98badcfe;
      state[3] := 0x10325476;
      state[4] := 0xc3d2e1f0;
      message := [];
    }

    /** PHP_SHA1Update */
    method Update(input: seq<byte>)
      requires Valid() && ChunkFits(|message| % 64, |input|)
      modifies this, state, buffer
      ensures Valid() && message == old(message) + input
    {
      hide HashBlocks, CountAfter, ChunkFits, Whole, Counts, StateIn;
      ghost var m, base := message + input, |message|;
      FitsIsShort(base % 64, |input|);
      WholeIs(base, base - base % 64);
      IndexOfCount(low, high, base);
      CountStep(low, high, |input|, 8 * base);
      var used := low / 8 % 64;
      Count(|input|);
      Extended(message, input, Whole(base));
      var index, i;
      ghost var p;
      index, i, p := HashFull(state, buffer, used, input, m, base);
      Keep(buffer, index, input[i..], m, p);
      message := m;
    }

    /** The first lines of PHP_SHA1Update: the number of bits so far. */
    method Count(n: nat)
      modifies this`low, this`high
      ensures (low, high) == CountAfter(old(low), old(high), n)
    {
      var added := n % MODULUS * 8 % MODULUS;
      low := (low + added) % MODULUS;
      if low < added {
        high := (high + 1) % MODULUS;
      }
      high := (high + n % MODULUS / 0x2000_0000) % MODULUS;
    }

    /** PHP_SHA1Final */
    method Final(digest: array<byte>)
      requires Valid() && digest.Length == 20 && digest != buffer
      modifies this, state, buffer, digest
      ensures digest[..] == Digest(old(message))
    {
      hide HashBlocks, Encoded, BigEndian64, CountBytes;
      ghost var m := message;
      var bits := CountBytes(low, high);
      CountBytesAreLength(low, high, 8 * |m|);
      IndexOfCount(low, high, |m|);
      var index := low / 8 % 64;
      var padLen := if index < 56 then 56 - index else 120 - index;
      ShortChunkFits(|m| % 64, padLen);
      Update(PADDING[..padLen]);
      ShortChunkFits(|message| % 64, 8);
      Update(bits);
      assert PADDING[..padLen] == [0x80] + Zeros(ZeroCount(|m|));
      assert message == Pad(m);
      assert message[..Whole(|message|)] == message;
      Encode(digest, state);
      assert state[..] == [state[0], state[1], state[2], state[3], state[4]];
    }
  }

  // ----- streaming -----

  /**
    Init, any number of updates, and Final, as sha1_file does with what it reads: the digest is that of
    the whole message, however it was cut into chunks.
   */
  method HashChunks(chunks: seq<seq<byte>>) returns (digest: array<byte>)
    requires forall c :: c in chunks ==> |c| <= MODULUS - 64
    ensures digest.Length == 20 && digest[..] == Digest(Joined(chunks))
  {
    var context := new Context();
    digest := new byte[20];
    for i := 0 to |chunks|
      invariant context.Valid() && context.message == Joined(chunks[..i])
      invariant fresh(context) && fresh(context.state) && fresh(context.buffer) && fresh(digest)
      invariant digest != context.buffer
    {
      ShortChunkFits(|context.message| % 64, |chunks[i]|);
      context.Update(chunks[i]);
      assert chunks[..i + 1][..i] == chunks[..i];
    }
    assert chunks[..|chunks|] == chunks;
    context.Final(digest);
  }
}
