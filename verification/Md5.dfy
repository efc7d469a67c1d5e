/** The streaming MD5 hasher of md5_php.c. */
module Md5 {
  import opened Words
  import opened BlockStream
  import opened Sequences
  import opened Md5Spec

  // ----- the macros F, G, H, I, STEP and SET -----

  function MacroF(x: word, y: word, z: word): word { Xor(z, And(x, Xor(y, z))) }

  function MacroG(x: word, y: word, z: word): word { Xor(y, And(z, Xor(x, y))) }

  /** The optimised F is the F of RFC 1321. */
  lemma MacroFIsF(x: word, y: word, z: word)
    ensures MacroF(x, y, z) == F(x, y, z)
  {
    Pow2Word();
    SelectBits(x, y, z, 32);
  }

  /** The optimised G is the G of RFC 1321. */
  lemma MacroGIsG(x: word, y: word, z: word)
    ensures MacroG(x, y, z) == G(x, y, z)
  {
    Pow2Word();
    SelectBits(z, x, y, 32);
    AndCommutes(x, z);
    AndCommutes(y, Not(z));
  }

  function Macro(i: nat, x: word, y: word, z: word): word {
    if i < 16 then MacroF(x, y, z) else if i < 32 then MacroG(x, y, z)
    else if i < 48 then Xor(Xor(x, y), z) else Xor(y, Or(x, Not(z)))
  }

  lemma MacroIsRoundFunction(i: nat, x: word, y: word, z: word)
    ensures Macro(i, x, y, z) == RoundFunction(i, x, y, z)
  {
    MacroFIsF(x, y, z);
    MacroGIsG(x, y, z);
  }

  /** Four bytes put together by shifts and ors, as SET does. */
  function Assemble(b0: byte, b1: byte, b2: byte, b3: byte): word {
    Or(Or(Or(b0, ShiftLeft(b1, 8)), ShiftLeft(b2, 16)), ShiftLeft(b3, 24))
  }

  lemma AssembleIsSum(b0: byte, b1: byte, b2: byte, b3: byte)
    ensures Assemble(b0, b1, b2, b3) == b3 as int * 0x100_0000 + b2 as int * 0x1_0000 + b1 as int * 0x100 + b0
  {
    hide BitOr;
    assert Pow2(8) == 0x100;
    assert Pow2(16) == 0x1_0000;
    assert Pow2(24) == 0x100_0000;
    OrIsPlus(b1, b0, 8);
    OrIsPlus(b2, b1 as int * 0x100 + b0, 16);
    OrIsPlus(b3, b2 as int * 0x1_0000 + b1 as int * 0x100 + b0, 24);
  }

  /** The first n words of the block are in ctx->block. */
  ghost predicate Loaded(block: seq<word>, data: Block, n: nat) {
    n <= 16 && |block| == 16 && forall k :: 0 <= k < n ==> block[k] == X(data, k)
  }

  /** How many words have been read when step i is due. */
  function Read(i: nat): nat {
    if i < 16 then i else 16
  }

  /** SET in the first round, GET in the others. */
  method Fetch(block: array<word>, data: Block, k: nat, i: nat) returns (x: word)
    requires block.Length == 16 && k == Index(i) && Loaded(block[..], data, Read(i))
    modifies block
    ensures Loaded(block[..], data, Read(i + 1)) && x == X(data, k)
  {
    hide Assemble;
    if i < 16 {
      AssembleIsSum(data[4 * k], data[4 * k + 1], data[4 * k + 2], data[4 * k + 3]);
      block[k] := Assemble(data[4 * k], data[4 * k + 1], data[4 * k + 2], data[4 * k + 3]);
    }
    x := block[k];
  }

  lemma SumOrderWithSum(a: word, f: word, x: word, t: word)
    ensures Add(a, Add(Add(f, x), t)) == Add(Add(Add(a, f), x), t)
  {
    hide Add;
    AddAssociates(f, x, t);
    AddAssociates(a, f, Add(x, t));
    AddAssociates(Add(a, f), x, t);
  }

  /** The macro STEP: only a is updated; the caller changes the roles. */
  method Mix(i: nat, a: word, b: word, c: word, d: word, x: word, t: word, s: nat) returns (a': word)
    requires s == Amount(i)
    ensures State(d, a', b, c) == Step(State(a, b, c, d), i, x, t)
  {
    hide Add, RotateLeft, Macro, RoundFunction, Amount;
    a' := Add(a, Add(Add(Macro(i, b, c, d), x), t));
    a' := RotateLeft(a', s);
    MacroIsRoundFunction(i, b, c, d);
    SumOrderWithSum(a, RoundFunction(i, b, c, d), x, t);
    AddCommutes(a', b);
    a' := Add(a', b);
  }

  /** Four steps in a row, after which every variable has its first role again. */
  method Four(i: nat, s: State, block: array<word>, data: Block, ghost start: State,
              k0: nat, t0: word, s0: nat, k1: nat, t1: word, s1: nat,
              k2: nat, t2: word, s2: nat, k3: nat, t3: word, s3: nat)
    returns (r: State)
    requires block.Length == 16 && Loaded(block[..], data, Read(i)) && s == Steps(start, data, i)
    requires k0 == Index(i) && t0 == T(i) && s0 == Amount(i)
    requires k1 == Index(i + 1) && t1 == T(i + 1) && s1 == Amount(i + 1)
    requires k2 == Index(i + 2) && t2 == T(i + 2) && s2 == Amount(i + 2)
    requires k3 == Index(i + 3) && t3 == T(i + 3) && s3 == Amount(i + 3)
    modifies block
    ensures Loaded(block[..], data, Read(i + 4)) && r == Steps(start, data, i + 4)
  {
    hide Step, Steps, X, T, Index, Amount, Loaded, Read;
    FourSteps(start, data, i);
    var State(a, b, c, d) := s;
    var x := Fetch(block, data, k0, i);
    a := Mix(i, a, b, c, d, x, t0, s0);
    x := Fetch(block, data, k1, i + 1);
    d := Mix(i + 1, d, a, b, c, x, t1, s1);
    x := Fetch(block, data, k2, i + 2);
    c := Mix(i + 2, c, d, a, b, x, t2, s2);
    x := Fetch(block, data, k3, i + 3);
    b := Mix(i + 3, b, c, d, a, x, t3, s3);
    r := State(a, b, c, d);
  }

  lemma FourSteps(start: State, data: Block, i: nat)
    ensures var u1 := Step(Steps(start, data, i), i, X(data, Index(i)), T(i));
      var u2 := Step(u1, i + 1, X(data, Index(i + 1)), T(i + 1));
      var u3 := Step(u2, i + 2, X(data, Index(i + 2)), T(i + 2));
      Steps(start, data, i + 4) == Step(u3, i + 3, X(data, Index(i + 3)), T(i + 3))
  {
    hide Step, X, T, Index;
    assert Steps(start, data, i + 1) == Step(Steps(start, data, i), i, X(data, Index(i)), T(i));
    assert Steps(start, data, i + 2) == Step(Steps(start, data, i + 1), i + 1, X(data, Index(i + 1)), T(i + 1));
    assert Steps(start, data, i + 3) == Step(Steps(start, data, i + 2), i + 2, X(data, Index(i + 2)), T(i + 2));
  }

  lemma NoSteps(start: State, data: Block)
    ensures Steps(start, data, 0) == start
  {}

  method Round1(entry: State, block: array<word>, data: Block, ghost start: State) returns (s: State)
    requires block.Length == 16 && Loaded(block[..], data, Read(0)) && entry == Steps(start, data, 0)
    modifies block
    ensures Loaded(block[..], data, Read(16)) && s == Steps(start, data, 16)
  {
    hide Step, Steps, X, Loaded, Read;
    s := Four(0, entry, block, data, start, 0, 0xd76aa478, 7, 1, 0xe8c7b756, 12, 2, 0x242070db, 17, 3, 0xc1bdceee, 22);
    s := Four(4, s, block, data, start, 4, 0xf57c0faf, 7, 5, 0x4787c62a, 12, 6, 0xa8304613, 17, 7, 0xfd469501, 22);
    s := Four(8, s, block, data, start, 8, 0x698098d8, 7, 9, 0x8b44f7af, 12, 10, 0xffff5bb1, 17, 11, 0x895cd7be, 22);
    s := Four(12, s, block, data, start, 12, 0x6b901122, 7, 13, 0xfd987193, 12, 14, 0xa679438e, 17, 15, 0x49b40821, 22);
  }

  method Round2(entry: State, block: array<word>, data: Block, ghost start: State) returns (s: State)
    requires block.Length == 16 && Loaded(block[..], data, Read(16)) && entry == Steps(start, data, 16)
    modifies block
    ensures Loaded(block[..], data, Read(32)) && s == Steps(start, data, 32)
  {
    hide Step, Steps, X, Loaded, Read;
    s := Four(16, entry, block, data, start, 1, 0xf61e2562, 5, 6, 0xc040b340, 9, 11, 0x265e5a51, 14, 0, 0xe9b6c7aa, 20);
    s := Four(20, s, block, data, start, 5, 0xd62f105d, 5, 10, 0x02441453, 9, 15, 0xd8a1e681, 14, 4, 0xe7d3fbc8, 20);
    s := Four(24, s, block, data, start, 9, 0x21e1cde6, 5, 14, 0xc33707d6, 9, 3, 0xf4d50d87, 14, 8, 0x455a14ed, 20);
    s := Four(28, s, block, data, start, 13, 0xa9e3e905, 5, 2, 0xfcefa3f8, 9, 7, 0x676f02d9, 14, 12, 0x8d2a4c8a, 20);
  }

  method Round3(entry: State, block: array<word>, data: Block, ghost start: State) returns (s: State)
    requires block.Length == 16 && Loaded(block[..], data, Read(32)) && entry == Steps(start, data, 32)
    modifies block
    ensures Loaded(block[..], data, Read(48)) && s == Steps(start, data, 48)
  {
    hide Step, Steps, X, Loaded, Read;
    s := Four(32, entry, block, data, start,
              5, 0xfffa3942, 4, 8, 0x8771f681, 11, 11, 0x6d9d6122, 16, 14, 0xfde5380c, 23);
    s := Four(36, s, block, data, start, 1, 0xa4beea44, 4, 4, 0x4bdecfa9, 11, 7, 0xf6bb4b60, 16, 10, 0xbebfbc70, 23);
    s := Four(40, s, block, data, start, 13, 0x289b7ec6, 4, 0, 0xeaa127fa, 11, 3, 0xd4ef3085, 16, 6, 0x04881d05, 23);
    s := Four(44, s, block, data, start, 9, 0xd9d4d039, 4, 12, 0xe6db99e5, 11, 15, 0x1fa27cf8, 16, 2, 0xc4ac5665, 23);
  }

  method Round4(entry: State, block: array<word>, data: Block, ghost start: State) returns (s: State)
    requires block.Length == 16 && Loaded(block[..], data, Read(48)) && entry == Steps(start, data, 48)
    modifies block
    ensures Loaded(block[..], data, Read(64)) && s == Steps(start, data, 64)
  {
    hide Step, Steps, X, Loaded, Read;
    s := Four(48, entry, block, data, start,
              0, 0xf4292244, 6, 7, 0x432aff97, 10, 14, 0xab9423a7, 15, 5, 0xfc93a039, 21);
    s := Four(52, s, block, data, start, 12, 0x655b59c3, 6, 3, 0x8f0ccc92, 10, 10, 0xffeff47d, 15, 1, 0x85845dd1, 21);
    s := Four(56, s, block, data, start, 8, 0x6fa87e4f, 6, 15, 0xfe2ce6e0, 10, 6, 0xa3014314, 15, 13, 0x4e0811a1, 21);
    s := Four(60, s, block, data, start, 4, 0xf7537e82, 6, 11, 0xbd3af235, 10, 2, 0x2ad7d2bb, 15, 9, 0xeb86d391, 21);
  }

  /** The 64 steps, in four rounds. */
  method SixtyFourSteps(start: State, block: array<word>, data: Block) returns (s: State)
    requires block.Length == 16
    modifies block
    ensures s == Steps(start, data, 64)
  {
    hide Step, Steps, X;
    NoSteps(start, data);
    s := Round1(start, block, data, start);
    s := Round2(s, block, data, start);
    s := Round3(s, block, data, start);
    s := Round4(s, block, data, start);
  }

  // ----- the byte counter -----

  const LOW: int := 0x2000_0000
  const TWO61: int := 0x2000_0000_0000_0000

  predicate Counts(lo: word, hi: word, length: nat) {
    lo < LOW && hi * LOW + lo == length % TWO61
  }

  /** ctx->lo and ctx->hi after PHP_MD5Update has added a chunk of n bytes. */
  function CountAfter(lo: word, hi: word, n: nat): (word, word) {
    var lo' := (lo + n) % LOW;
    var carried := if lo' < lo then (hi + 1) % MODULUS else hi;
    (lo', (carried + n / LOW) % MODULUS)
  }

  lemma CountStep(lo: word, hi: word, n: nat, length: nat)
    requires Counts(lo, hi, length)
    ensures var (lo', hi') := CountAfter(lo, hi, n); Counts(lo', hi', length + n)
  {
    var (lo', hi') := CountAfter(lo, hi, n);
    var q, r := n / LOW, n % LOW;
    var c := if lo + r < LOW then 0 else 1;
    ModIs(lo + n, lo + r - c * LOW, q + c, LOW);
    assert c == if lo' < lo then 1 else 0;
    var carried := if lo' < lo then (hi + 1) % MODULUS else hi;
    var d := (hi + c) / MODULUS;
    assert hi + c == carried + d * MODULUS;
    var e := (carried + q) / MODULUS;
    assert carried + q == hi' + e * MODULUS;
    ModIs(length + n, hi' * LOW + lo', length / TWO61 + d + e, TWO61);
  }

  /** The low word alone tells how much of the buffer is used. */
  lemma UsedIs(lo: word, hi: word, length: nat)
    requires Counts(lo, hi, length)
    ensures lo % 64 == length % 64 && lo < LOW
  {
    ModIs(length, lo % 64, lo / 64 + hi * 0x80_0000 + length / TWO61 * 0x80_0000_0000_0000, 64);
  }

  /** The eight bytes of length that PHP_MD5Final appends. */
  function CountBytes(lo: word, hi: word): (r: seq<byte>)
    requires lo < LOW
    ensures |r| == 8
  {
    var bits := lo * 8;
    [ bits % 256, bits / 0x100 % 256, bits / 0x1_0000 % 256, bits / 0x100_0000 % 256,
      hi % 256, hi / 0x100 % 256, hi / 0x1_0000 % 256, hi / 0x100_0000 % 256 ]
  }

  lemma CountBytesAreLength(lo: word, hi: word, length: nat)
    requires Counts(lo, hi, length)
    ensures CountBytes(lo, hi) == LittleEndian64(8 * length)
  {
    ModIs(8 * length, hi * MODULUS + lo * 8, length / TWO61, TWO64);
    TwoWords(8 * length, lo * 8, hi);
    LowBytes(lo * 8, 8 * length);
    LowBytes(hi, 8 * length / MODULUS);
    HighBytes(8 * length);
  }

  // ----- the context -----

  lemma HashMore(s: State, m: seq<byte>, p: nat, q: nat)
    requires p % 64 == 0 && p <= q <= |m|
    ensures HashBlocks(s, m[..q]) == HashBlocks(HashBlocks(s, m[..p]), m[p..q])
  {
    hide Compress;
    assert m[..q] == m[..p] + m[p..q];
    FoldConcat(Compress, s, m[..p], m[p..q]);
  }

  /** memset(..., 0, n) */
  method Clear(buffer: array<byte>, start: nat, n: nat)
    requires start + n <= buffer.Length
    modifies buffer
    ensures buffer[..] == old(buffer[..start]) + Zeros(n) + old(buffer[start + n..])
  {
    CopyInto(buffer, start, Zeros(n));
  }

  class Context {
    var lo: word
    var hi: word
    var a: word
    var b: word
    var c: word
    var d: word
    const buffer: array<byte>
    const block: array<word>
    ghost var message: seq<byte>

    ghost function Current(): State
      reads this
    {
      State(a, b, c, d)
    }

    ghost predicate Shape() {
      buffer.Length == 64 && block.Length == 16
    }

    ghost predicate Valid()
      reads this, buffer
    {
      && Shape()
      && Counts(lo, hi, |message|)
      && Current() == HashBlocks(INITIAL_STATE, message[..Whole(|message|)])
      && buffer[..|message| % 64] == message[Whole(|message|)..]
    }

    constructor ()
      ensures Valid() && message == [] && fresh(buffer) && fresh(block)
    {
      buffer := new byte[64];
      block := new word[16];
      new;
      Init();
    }

    /** PHP_MD5Init */
    method Init()
      requires Shape()
      modifies this
      ensures Valid() && message == []
    {
      a, b, c, d := 0x67452301, 0xefcdab89, 0x98badcfe, 0x10325476;
      lo, hi := 0, 0;
      message := [];
    }

    /** body: one or more blocks, each by 64 steps and an addition. */
    method Body(data: seq<byte>)
      requires Shape() && |data| > 0 && |data| % 64 == 0
      modifies this`a, this`b, this`c, this`d, block
      ensures Current() == HashBlocks(old(Current()), data)
    {
      hide HashBlocks, Compress;
      var s := State(a, b, c, d);
      ghost var entry := s;
      NothingHashed(entry);
      assert data[..0] == [];
      var ptr, size := 0, |data|;
      var again := true;
      while again
        invariant 0 <= ptr <= |data| && ptr + size == |data| && ptr % 64 == 0 && size % 64 == 0 && again == (size > 0)
        invariant s == HashBlocks(entry, data[..ptr])
        decreases size
      {
        NextBlock(entry, data, ptr);
        s := BodyBlock(s, data[ptr..ptr + 64]);
        ptr := ptr + 64;
        size := size - 64;
        again := size != 0;
      }
      assert data[..ptr] == data;
      a, b, c, d := s.a, s.b, s.c, s.d;
    }

    /** The inside of the loop of body. */
    method BodyBlock(saved: State, data: Block) returns (s: State)
      requires Shape()
      modifies block
      ensures s == Compress(saved, data)
    {
      hide Steps, Add;
      s := SixtyFourSteps(saved, block, data);
      s := State(Add(s.a, saved.a), Add(s.b, saved.b), Add(s.c, saved.c), Add(s.d, saved.d));
    }

    /** The first lines of PHP_MD5Update. */
    method Count(n: nat)
      requires lo < LOW
      modifies this`lo, this`hi
      ensures (lo, hi) == CountAfter(old(lo), old(hi), n)
    {
      var saved := lo;
      lo := (saved + n) % LOW;
      if lo < saved {
        hi := (hi + 1) % MODULUS;
      }
      hi := (hi + n / LOW) % MODULUS;
    }

    /** A chunk that fills the buffer: the buffer goes through body. */
    method HashBuffer(used: nat, data: seq<byte>, ghost m: seq<byte>, ghost base: nat)
      requires Shape() && 0 < used == base % 64 && 64 - used <= |data|
      requires base + |data| == |m| && m[base..] == data && buffer[..used] == m[base - used..base]
      requires Current() == HashBlocks(INITIAL_STATE, m[..base - used])
      modifies this`a, this`b, this`c, this`d, buffer, block
      ensures Current() == HashBlocks(INITIAL_STATE, m[..base + (64 - used)])
    {
      hide HashBlocks;
      var free := 64 - used;
      CopyInto(buffer, used, data[..free]);
      ghost var start := base - used;
      PieceOf(m, base, data, 0, free);
      assert m[start..start + 64] == m[start..base] + m[base..base + free];
      HashMore(INITIAL_STATE, m, start, start + 64);
      assert buffer[..] == m[start..start + 64];
      Body(buffer[..]);
      assert start + 64 == base + (64 - used);
    }

    /** The whole blocks of the rest of a chunk go through body. */
    method HashRest(data: seq<byte>, start: nat, ghost m: seq<byte>, ghost base: nat) returns (i: nat)
      requires Shape() && start <= |data| && (base + start) % 64 == 0
      requires base + |data| == |m| && m[base..] == data
      requires Current() == HashBlocks(INITIAL_STATE, m[..base + start])
      modifies this`a, this`b, this`c, this`d, block
      ensures i <= |data| < i + 64 && (base + i) % 64 == 0
      ensures Current() == HashBlocks(INITIAL_STATE, m[..base + i])
    {
      hide HashBlocks;
      i := start;
      var size := |data| - i;
      if size >= 64 {
        var whole := size - size % 64;
        HashMore(INITIAL_STATE, m, base + i, base + i + whole);
        PieceOf(m, base, data, i, i + whole);
        Body(data[i..i + whole]);
        i := i + whole;
      }
    }

    /** The middle of PHP_MD5Update. What is left of the chunk goes to the buffer at index. */
    method HashFull(used: nat, data: seq<byte>, ghost m: seq<byte>, ghost base: nat)
      returns (index: nat, i: nat, ghost p: nat)
      requires Shape() && used == base % 64
      requires base + |data| == |m| && m[base..] == data && buffer[..used] == m[base - used..base]
      requires Current() == HashBlocks(INITIAL_STATE, m[..base - used])
      modifies this`a, this`b, this`c, this`d, buffer, block
      ensures i <= |data| && p + index + |data[i..]| == |m| < p + 64 && p % 64 == 0
      ensures index < 64 && buffer[..index] == m[p..p + index] && data[i..] == m[p + index..]
      ensures Current() == HashBlocks(INITIAL_STATE, m[..p])
    {
      hide HashBlocks;
      var start := 0;
      if used != 0 {
        start := 64 - used;
        if |data| < start {
          return used, 0, base - used;
        }
        HashBuffer(used, data, m, base);
      }
      i := HashRest(data, start, m, base);
      index, p := 0, base + i;
    }

    /** PHP_MD5Update */
    method Update(data: seq<byte>)
      requires Valid()
      modifies this, buffer, block
      ensures Valid() && message == old(message) + data
    {
      hide HashBlocks, CountAfter, Whole, Counts;
      ghost var m, base := message + data, |message|;
      WholeIs(base, base - base % 64);
      UsedIs(lo, hi, base);
      CountStep(lo, hi, |data|, base);
      var used := lo % 64;
      Count(|data|);
      Extended(message, data, Whole(base));
      var index, i;
      ghost var p;
      index, i, p := HashFull(used, data, m, base);
      Keep(buffer, index, data[i..], m, p);
      WholeIs(|m|, p);
      message := m;
    }

    /** The padding in PHP_MD5Final: one more block, or two when the length does not fit into the first. */
    method PadOut()
      requires Valid()
      modifies this, buffer, block
      ensures Shape() && Current() == HashBlocks(INITIAL_STATE, Pad(old(message)))
    {
      hide HashBlocks, LittleEndian64, CountBytes, Pad, Whole, Zeros;
      ghost var m, p := message, Whole(|message|);
      ghost var entry := Current();
      UsedIs(lo, hi, |m|);
      CountBytesAreLength(lo, hi, |m|);
      PadTail(m, m[p..]);
      HashTail(m);
      var used := lo % 64;
      buffer[used] := 0x80;
      used := used + 1;
      var free := 64 - used;
      ghost var head := m[p..] + [0x80];
      assert buffer[..used] == head;
      if free < 8 {
        Clear(buffer, used, free);
        assert buffer[..] == head + Zeros(free);
        HashTwo(entry, head + Zeros(free), Zeros(56) + CountBytes(lo, hi));
        Body(buffer[..]);
        used, free, head := 0, 64, [];
      }
      Clear(buffer, used, free - 8);
      CopyInto(buffer, 56, CountBytes(lo, hi));
      lo := lo * 8;
      assert buffer[..] == head + Zeros(free - 8) + LittleEndian64(8 * |m|);
      assert [] + Zeros(56) == Zeros(56);
      Body(buffer[..]);
    }

    /** PHP_MD5Final */
    method Final(result: array<byte>)
      requires Valid() && result.Length == 16 && result != buffer
      modifies this, buffer, block, result
      ensures result[..] == Digest(old(message))
    {
      hide HashBlocks, Pad, WordBytes;
      PadOut();
      CopyInto(result, 0, WordBytes(a) + WordBytes(b) + WordBytes(c) + WordBytes(d));
    }
  }

  /** Hashing the padded message is hashing its whole blocks and then the rest of it. */
  lemma HashTail(m: seq<byte>)
    ensures var p := Whole(|m|);
      p <= |Pad(m)| &&
      HashBlocks(INITIAL_STATE, Pad(m)) == HashBlocks(HashBlocks(INITIAL_STATE, m[..p]), Pad(m)[p..])
  {
    hide HashBlocks, LittleEndian64;
    var p := Whole(|m|);
    HashMore(INITIAL_STATE, Pad(m), p, |Pad(m)|);
    assert Pad(m)[..p] == m[..p] && Pad(m)[..|Pad(m)|] == Pad(m) && Pad(m)[p..|Pad(m)|] == Pad(m)[p..];
  }

  lemma NothingHashed(s: State)
    ensures HashBlocks(s, []) == s
  {}

  lemma HashTwo(s: State, x: seq<byte>, y: seq<byte>)
    requires |x| % 64 == 0
    ensures HashBlocks(s, x + y) == HashBlocks(HashBlocks(s, x), y)
  {
    hide Compress;
    FoldConcat(Compress, s, x, y);
  }

  lemma ZerosSplit(i: nat, j: nat)
    ensures Zeros(i) + Zeros(j) == Zeros(i + j)
  {}

  /** What the padded message has after the whole blocks of the message. */
  lemma PadTail(m: seq<byte>, rest: seq<byte>)
    requires rest == m[Whole(|m|)..]
    ensures var first := rest + [0x80];
      var free := 64 - |first|;
      var tail := Pad(m)[Whole(|m|)..];
      if free < 8 then tail == (first + Zeros(free)) + (Zeros(56) + LittleEndian64(8 * |m|))
      else tail == first + Zeros(free - 8) + LittleEndian64(8 * |m|)
  {
    hide LittleEndian64;
    var first := rest + [0x80];
    var free := 64 - |first|;
    assert m == m[..Whole(|m|)] + rest;
    if free < 8 { ZerosSplit(free, 56); }
  }

  /**
    Init, any number of updates, and Final, as md5_file does with what it reads: the digest is that of
    the whole message, however it was cut into chunks.
   */
  method HashChunks(chunks: seq<seq<byte>>) returns (digest: array<byte>)
    ensures digest.Length == 16 && digest[..] == Digest(Joined(chunks))
  {
    var context := new Context();
    digest := new byte[16];
    for i := 0 to |chunks|
      invariant context.Valid() && context.message == Joined(chunks[..i])
      invariant fresh(context) && fresh(context.buffer) && fresh(context.block) && fresh(digest)
      invariant digest != context.buffer
    {
      context.Update(chunks[i]);
      assert chunks[..i + 1][..i] == chunks[..i];
    }
    assert chunks[..|chunks|] == chunks;
    context.Final(digest);
  }
}
