/**
 SHA-256 (FIPS 180-4) and HMAC-SHA-256 (RFC 2104): the recursive definitions of the
 standards, and the streaming hasher that computes them with arrays and a block buffer.
 */
module Sha256 {

  type Byte = bv8
  type Word = bv32

  const BLOCK_BYTES: nat := 64

  const ROUND_CONSTANTS: seq<Word> :=
    [0x428a2f98, 0x71374491, 0xb5c0fbcf, 0xe9b5dba5, 0x3956c25b, 0x59f111f1, 0x923f82a4, 0xab1c5ed5]
    + [0xd807aa98, 0x12835b01, 0x243185be, 0x550c7dc3, 0x72be5d74, 0x80deb1fe, 0x9bdc06a7, 0xc19bf174]
    + [0xe49b69c1, 0xefbe4786, 0x0fc19dc6, 0x240ca1cc, 0x2de92c6f, 0x4a7484aa, 0x5cb0a9dc, 0x76f988da]
    + [0x983e5152, 0xa831c66d, 0xb00327c8, 0xbf597fc7, 0xc6e00bf3, 0xd5a79147, 0x06ca6351, 0x14292967]
    + [0x27b70a85, 0x2e1b2138, 0x4d2c6dfc, 0x53380d13, 0x650a7354, 0x766a0abb, 0x81c2c92e, 0x92722c85]
    + [0xa2bfe8a1, 0xa81a664b, 0xc24b8b70, 0xc76c51a3, 0xd192e819, 0xd6990624, 0xf40e3585, 0x106aa070]
    + [0x19a4c116, 0x1e376c08, 0x2748774c, 0x34b0bcb5, 0x391c0cb3, 0x4ed8aa4a, 0x5b9cca4f, 0x682e6ff3]
    + [0x748f82ee, 0x78a5636f, 0x84c87814, 0x8cc70208, 0x90befffa, 0xa4506ceb, 0xbef9a3f7, 0xc67178f2]

  /** The eight chaining words, also used as the working variables a..h. */
  datatype Words = Words(a: Word, b: Word, c: Word, d: Word, e: Word, f: Word, g: Word, h: Word)

  const INITIAL := Words(0x6a09e667, 0xbb67ae85, 0x3c6ef372, 0xa54ff53a,
                         0x510e527f, 0x9b05688c, 0x1f83d9ab, 0x5be0cd19)

  type Block = b: seq<Byte> | |b| == BLOCK_BYTES witness seq(BLOCK_BYTES, _ => 0)

  // ---- section 4.1.2: the functions ------------------------------------------------------

  /** Addition modulo 2^32. */
  function Add(x: Word, y: Word): Word { x + y }

  function Ch(x: Word, y: Word, z: Word): Word { (x & y) ^ (!x & z) }

  function Maj(x: Word, y: Word, z: Word): Word { (x & y) ^ (x & z) ^ (y & z) }

  function BigSigma0(x: Word): Word { x.RotateRight(2) ^ x.RotateRight(13) ^ x.RotateRight(22) }

  function BigSigma1(x: Word): Word { x.RotateRight(6) ^ x.RotateRight(11) ^ x.RotateRight(25) }

  function SmallSigma0(x: Word): Word { x.RotateRight(7) ^ x.RotateRight(18) ^ (x >> 3) }

  function SmallSigma1(x: Word): Word { x.RotateRight(17) ^ x.RotateRight(19) ^ (x >> 10) }

  function BigEndianWord(b: seq<Byte>): Word
    requires |b| == 4
  {
    (b[0] as Word << 24) | (b[1] as Word << 16) | (b[2] as Word << 8) | b[3] as Word
  }

  function WordBytes(w: Word): (b: seq<Byte>)
    ensures |b| == 4
  {
    [(w >> 24) as Byte, ((w >> 16) & 0xff) as Byte, ((w >> 8) & 0xff) as Byte, (w & 0xff) as Byte]
  }

  // ---- section 6.2.2: one block ----------------------------------------------------------

  /** Message schedule word t. */
  function Schedule(block: Block, t: nat): Word {
    if t < 16 then BigEndianWord(block[4 * t..4 * t + 4])
    else
      Add(Add(Add(Schedule(block, t - 16), SmallSigma0(Schedule(block, t - 15))),
              Schedule(block, t - 7)), SmallSigma1(Schedule(block, t - 2)))
  }

  function Round(r: Words, k: Word, w: Word): Words {
    var t1 := Add(Add(Add(Add(r.h, BigSigma1(r.e)), Ch(r.e, r.f, r.g)), k), w);
    var t2 := Add(BigSigma0(r.a), Maj(r.a, r.b, r.c));
    Words(Add(t1, t2), r.a, r.b, r.c, Add(r.d, t1), r.e, r.f, r.g)
  }

  /** The working variables after the first t rounds. */
  function Rounds(r: Words, block: Block, t: nat): Words
    requires t <= 64
  {
    if t == 0 then r else Round(Rounds(r, block, t - 1), ROUND_CONSTANTS[t - 1], Schedule(block, t - 1))
  }

  function AddWords(x: Words, y: Words): Words {
    Words(Add(x.a, y.a), Add(x.b, y.b), Add(x.c, y.c), Add(x.d, y.d),
          Add(x.e, y.e), Add(x.f, y.f), Add(x.g, y.g), Add(x.h, y.h))
  }

  function CompressBlock(state: Words, block: Block): Words {
    AddWords(state, Rounds(state, block, 64))
  }

  /** Chaining value after whole blocks, first to last. */
  function HashBlocks(state: Words, data: seq<Byte>): Words
    requires |data| % BLOCK_BYTES == 0
  {
    if |data| == 0 then state
    else
      var init := |data| - BLOCK_BYTES;
      CompressBlock(HashBlocks(state, data[..init]), data[init..])
  }

  lemma {:induction false} HashBlocksConcat(state: Words, a: seq<Byte>, b: seq<Byte>)
    requires |a| % BLOCK_BYTES == 0 && |b| % BLOCK_BYTES == 0
    ensures HashBlocks(state, a + b) == HashBlocks(HashBlocks(state, a), b)
    decreases |b|
  {
    hide CompressBlock, HashBlocks;
    if |b| == 0 {
      assert a + b == a && b == [];
      HashNothing(HashBlocks(state, a));
    } else {
      var init := |b| - BLOCK_BYTES;
      HashBlocksConcat(state, a, b[..init]);
      SliceConcat(a, b, init);
      HashLastBlock(state, a + b);
      HashLastBlock(HashBlocks(state, a), b);
    }
  }

  lemma SliceConcat(a: seq<Byte>, b: seq<Byte>, k: nat)
    requires k <= |b|
    ensures (a + b)[..|a| + k] == a + b[..k] && (a + b)[|a| + k..] == b[k..]
  {
  }

  lemma HashNothing(state: Words)
    ensures HashBlocks(state, []) == state
  {
  }

  lemma HashLastBlock(state: Words, data: seq<Byte>)
    requires |data| % BLOCK_BYTES == 0 && |data| > 0
    ensures var init := |data| - BLOCK_BYTES;
            HashBlocks(state, data) == CompressBlock(HashBlocks(state, data[..init]), data[init..])
  {
  }

  // ---- section 5.1.1: padding --------------------------------------------------------------

  const TWO_64: nat := 0x1_0000_0000_0000_0000

  /** The k low bits of n, least significant first. */
  function Bits(n: nat, k: nat): (b: seq<bool>)
    ensures |b| == k
  {
    if k == 0 then [] else [n % 2 == 1] + Bits(n / 2, k - 1)
  }

  function Flag(on: bool, mask: Byte): Byte {
    if on then mask else 0
  }

  function Pack(b: seq<bool>): Byte
    requires |b| == 8
  {
    Flag(b[7], 0x80) | Flag(b[6], 0x40) | Flag(b[5], 0x20) | Flag(b[4], 0x10)
    | Flag(b[3], 0x08) | Flag(b[2], 0x04) | Flag(b[1], 0x02) | Flag(b[0], 0x01)
  }

  function PackAll(b: seq<bool>): (p: seq<Byte>)
    requires |b| == 64
    ensures |p| == 8
  {
    [Pack(b[56..64]), Pack(b[48..56]), Pack(b[40..48]), Pack(b[32..40]),
     Pack(b[24..32]), Pack(b[16..24]), Pack(b[8..16]), Pack(b[0..8])]
  }

  /** A 64-bit number as eight bytes, most significant first. */
  function BigEndian64(n: nat): (b: seq<Byte>)
    ensures |b| == 8
  {
    PackAll(Bits(n, 64))
  }

  function ZeroBytes(n: nat): (b: seq<Byte>)
    ensures |b| == n
  {
    seq(n, _ => 0)
  }

  function BitLength(m: seq<Byte>): nat {
    8 * |m| % TWO_64
  }

  /** Zero bytes between the end mark and the length field. */
  function Gap(n: nat): nat {
    var r := n % BLOCK_BYTES;
    if r <= 55 then 55 - r else 119 - r
  }

  function Trailer(m: seq<Byte>): (t: seq<Byte>)
    ensures (|m| + |t|) % BLOCK_BYTES == 0
  {
    GapFills(|m|);
    [0x80] + ZeroBytes(Gap(|m|)) + BigEndian64(BitLength(m))
  }

  lemma GapFills(n: nat)
    ensures (n + 9 + Gap(n)) % BLOCK_BYTES == 0
  {
  }

  function Pad(m: seq<Byte>): (p: seq<Byte>)
    ensures |p| % BLOCK_BYTES == 0
  {
    m + Trailer(m)
  }

  function Serialise(words: seq<Word>): (b: seq<Byte>)
    ensures |b| == 4 * |words|
  {
    if |words| == 0 then [] else Serialise(words[..|words| - 1]) + WordBytes(words[|words| - 1])
  }

  function StateBytes(s: Words): (b: seq<Byte>)
    ensures |b| == 32
  {
    Serialise([s.a, s.b, s.c, s.d, s.e, s.f, s.g, s.h])
  }

  /** SHA-256 of a whole message. */
  function Digest(m: seq<Byte>): (d: seq<Byte>)
    ensures |d| == 32
  {
    StateBytes(HashBlocks(INITIAL, Pad(m)))
  }

  function Two(k: nat): nat {
    if k == 0 then 1 else 2 * Two(k - 1)
  }

  lemma PackInjective(a: seq<bool>, b: seq<bool>)
    requires |a| == |b| == 8 && Pack(a) == Pack(b)
    ensures a == b
  {
    assert a[0] == b[0] && a[1] == b[1] && a[2] == b[2] && a[3] == b[3];
    assert a[4] == b[4] && a[5] == b[5] && a[6] == b[6] && a[7] == b[7];
  }

  lemma {:induction false} BitsInjective(a: nat, b: nat, k: nat)
    requires Bits(a, k) == Bits(b, k) && a < Two(k) && b < Two(k)
    ensures a == b
    decreases k
  {
    if k > 0 {
      assert Bits(a, k)[0] == Bits(b, k)[0] && Bits(a, k)[1..] == Bits(b, k)[1..];
      BitsInjective(a / 2, b / 2, k - 1);
    }
  }

  lemma PackAllInjective(a: seq<bool>, b: seq<bool>)
    requires |a| == |b| == 64 && PackAll(a) == PackAll(b)
    ensures a == b
  {
    var p, q := PackAll(a), PackAll(b);
    assert p[0] == q[0] && p[1] == q[1] && p[2] == q[2] && p[3] == q[3];
    assert p[4] == q[4] && p[5] == q[5] && p[6] == q[6] && p[7] == q[7];
    PackInjective(a[56..64], b[56..64]);
    PackInjective(a[48..56], b[48..56]);
    PackInjective(a[40..48], b[40..48]);
    PackInjective(a[32..40], b[32..40]);
    PackInjective(a[24..32], b[24..32]);
    PackInjective(a[16..24], b[16..24]);
    PackInjective(a[8..16], b[8..16]);
    PackInjective(a[0..8], b[0..8]);
  }

  lemma BigEndian64Injective(a: nat, b: nat)
    requires a < TWO_64 && b < TWO_64 && BigEndian64(a) == BigEndian64(b)
    ensures a == b
  {
    PackAllInjective(Bits(a, 64), Bits(b, 64));
    TwoSixtyFour();
    BitsInjective(a, b, 64);
  }

  lemma TwoSum(a: nat, b: nat)
    ensures Two(a + b) == Two(a) * Two(b)
  {
    if a > 0 {
      TwoSum(a - 1, b);
    }
  }

  lemma TwoSixtyFour()
    ensures Two(64) == TWO_64
  {
    assert Two(8) == 256;
    TwoSum(8, 8);
    hide Two;
    TwoSum(16, 16);
    TwoSum(32, 32);
  }

  lemma SameGap(whole: nat, held: nat)
    requires whole % BLOCK_BYTES == 0
    ensures Gap(whole + held) == Gap(held)
  {
  }

  /** No two messages share a padded form, whatever their lengths. */
  lemma PadInjective(a: seq<Byte>, b: seq<Byte>)
    requires Pad(a) == Pad(b)
    ensures a == b
  {
    PadParts(a);
    PadParts(b);
    hide Pad, BigEndian64, Gap;
    BigEndian64Injective(BitLength(a), BitLength(b));
    NearLengthsEqual(|a|, |b|);
  }

  lemma PadParts(m: seq<Byte>)
    ensures |Pad(m)| == |m| + Gap(|m|) + 9
    ensures Pad(m)[..|m|] == m && Pad(m)[|Pad(m)| - 8..] == BigEndian64(BitLength(m))
  {
    hide BigEndian64;
  }

  lemma NearLengthsEqual(m: nat, n: nat)
    requires m + Gap(m) == n + Gap(n)
    requires 8 * m % TWO_64 == 8 * n % TWO_64
    ensures m == n
  {
    if m < n {
      SmallMultiple(8 * m, 8 * n);
    } else if n < m {
      SmallMultiple(8 * n, 8 * m);
    }
  }

  lemma SmallMultiple(x: nat, y: nat)
    requires x % TWO_64 == y % TWO_64 && x <= y < x + TWO_64
    ensures x == y
  {
  }

  // ---- the streaming hasher -------------------------------------------------------------------

  class Sha256Stream {
    const state: array<Word>
    var buffer: seq<Byte>
    var totalBits: nat
    ghost var hashed: seq<Byte>
    ghost var message: seq<Byte>

    ghost function Chaining(): Words
      requires state.Length == 8
      reads state
    {
      Words(state[0], state[1], state[2], state[3], state[4], state[5], state[6], state[7])
    }

    ghost predicate Hashed(data: seq<Byte>)
      reads state
    {
      && state.Length == 8
      && |data| % BLOCK_BYTES == 0
      && Chaining() == HashBlocks(INITIAL, data)
    }

    /** Whole blocks are hashed, the rest is buffered, and the length is counted modulo 2^64. */
    ghost predicate Valid()
      reads this, state
    {
      && Hashed(hashed)
      && |buffer| < BLOCK_BYTES
      && message == hashed + buffer
      && totalBits == BitLength(message)
    }

    constructor ()
      ensures Valid() && fresh(state) && message == []
    {
      state := new Word[8] [INITIAL.a, INITIAL.b, INITIAL.c, INITIAL.d,
                            INITIAL.e, INITIAL.f, INITIAL.g, INITIAL.h];
      buffer := [];
      totalBits := 0;
      hashed := [];
      message := [];
    }

    /** Absorbs a chunk: the message grows by exactly that chunk. */
    method Update(chunk: seq<Byte>)
      requires Valid()
      modifies this, state
      ensures Valid() && message == old(message) + chunk
    {
      hide HashBlocks, BitLength;
      var data := chunk;
      BitsOfConcat(message, chunk);
      totalBits := (totalBits + 8 * |data| % TWO_64) % TWO_64;
      message := message + chunk;
      if |buffer| > 0 {
        data := TopUp(data);
        if |buffer| > 0 {
          assert message == hashed + buffer;
          return;
        }
      }
      assert message == hashed + data;
      data := CompressWhole(data);
      buffer := buffer + data;
    }

    /** Completes the partial block if the chunk reaches that far, and compresses it. */
    method TopUp(chunk: seq<Byte>) returns (data: seq<Byte>)
      requires Hashed(hashed) && 0 < |buffer| < BLOCK_BYTES && message == hashed + buffer + chunk
      modifies this`buffer, this`hashed, state
      ensures Hashed(hashed) && |buffer| < BLOCK_BYTES && message == hashed + buffer + data
      ensures buffer == [] || data == []
    {
      var room := BLOCK_BYTES - |buffer|;
      var taken := if room < |chunk| then room else |chunk|;
      buffer := buffer + chunk[..taken];
      data := chunk[taken..];
      assert message == hashed + buffer + data;
      if |buffer| < BLOCK_BYTES {
        return;
      }
      CompressNext(buffer);
      buffer := [];
    }

    /** Compresses as many whole blocks as there are and returns the remainder. */
    method CompressWhole(chunk: seq<Byte>) returns (data: seq<Byte>)
      requires Hashed(hashed)
      modifies this`hashed, state
      ensures Hashed(hashed) && |data| < BLOCK_BYTES && |data| % BLOCK_BYTES == |chunk| % BLOCK_BYTES
      ensures hashed + data == old(hashed) + chunk
    {
      data := chunk;
      while |data| >= BLOCK_BYTES
        invariant Hashed(hashed) && hashed + data == old(hashed) + chunk
        invariant |data| % BLOCK_BYTES == |chunk| % BLOCK_BYTES
        decreases |data|
      {
        var block := data[..BLOCK_BYTES];
        CompressNext(block);
        OneBlockLess(|data|);
        data := data[BLOCK_BYTES..];
      }
    }

    /** Compresses the block that follows the hashed bytes. */
    method CompressNext(block: Block)
      requires Hashed(hashed)
      modifies this`hashed, state
      ensures Hashed(hashed) && hashed == old(hashed) + block
    {
      Absorb(INITIAL, hashed, block);
      Compress(block);
      hashed := hashed + block;
    }

    /** Pads, hashes what is left and returns the digest of everything absorbed. */
    method FinalizeBytes() returns (out: seq<Byte>)
      requires Valid()
      modifies this, state
      ensures out == Digest(old(message))
    {
      hide HashBlocks, Pad, StateBytes, BitLength;
      ghost var m := message;
      PadBuffer();
      CompressBuffer();
      assert hashed == Pad(m);
      out := DigestBytes();
    }

    method CompressBuffer()
      requires Hashed(hashed) && |buffer| % BLOCK_BYTES == 0
      modifies this`hashed, state
      ensures Hashed(hashed) && hashed == old(hashed) + buffer
    {
      hide HashBlocks;
      var i := 0;
      while i < |buffer|
        invariant 0 <= i <= |buffer| && (|buffer| - i) % BLOCK_BYTES == 0
        invariant Hashed(hashed) && hashed == old(hashed) + buffer[..i]
      {
        var block := buffer[i..i + BLOCK_BYTES];
        assert buffer[..i + BLOCK_BYTES] == buffer[..i] + block;
        CompressNext(block);
        i := i + BLOCK_BYTES;
      }
      assert buffer[..i] == buffer;
    }

    method PadBuffer()
      requires |buffer| < BLOCK_BYTES && message == hashed + buffer && |hashed| % BLOCK_BYTES == 0
      requires totalBits == BitLength(message)
      modifies this`buffer
      ensures hashed + buffer == Pad(message)
    {
      hide BigEndian64, Gap;
      var bits := totalBits;
      ghost var held := buffer;
      SameGap(|hashed|, |held|);
      buffer := buffer + [0x80];
      PushZeros();
      buffer := buffer + BigEndian64(bits);
      assert hashed + buffer == message + Trailer(message);
    }

    method PushZeros()
      requires 0 < |buffer| <= BLOCK_BYTES
      modifies this`buffer
      ensures buffer == old(buffer) + ZeroBytes(Gap(|old(buffer)| - 1))
    {
      ghost var start := buffer;
      ghost var pushed := 0;
      while |buffer| % BLOCK_BYTES != 56
        invariant 0 <= pushed <= Gap(|start| - 1)
        invariant buffer == start + ZeroBytes(pushed)
        decreases Gap(|start| - 1) - pushed
      {
        buffer := buffer + [0];
        pushed := pushed + 1;
      }
    }

    method DigestBytes() returns (out: seq<Byte>)
      requires state.Length == 8
      ensures out == StateBytes(Chaining())
    {
      hide WordBytes;
      out := [];
      var index := 0;
      while index < 8
        invariant 0 <= index <= 8 && out == Serialise(state[..index])
      {
        assert state[..index + 1][..index] == state[..index];
        out := out + WordBytes(state[index]);
        index := index + 1;
      }
      ghost var s := Chaining();
      assert state[..index] == [s.a, s.b, s.c, s.d, s.e, s.f, s.g, s.h];
    }

    method Compress(block: Block)
      requires state.Length == 8
      modifies state
      ensures Chaining() == CompressBlock(old(Chaining()), block)
    {
      hide Add, AddWords, BigSigma0, BigSigma1, Ch, Maj, Schedule;
      var w := ExpandSchedule(block);
      var a, b, c, d := state[0], state[1], state[2], state[3];
      var e, f, g, h := state[4], state[5], state[6], state[7];
      ghost var start := Chaining();
      var i := 0;
      while i < 64
        invariant 0 <= i <= 64
        invariant Words(a, b, c, d, e, f, g, h) == Rounds(start, block, i)
      {
        var s1 := BigSigma1(e);
        var ch := Ch(e, f, g);
        var t1 := Add(Add(Add(Add(h, s1), ch), ROUND_CONSTANTS[i]), w[i]);
        var s0 := BigSigma0(a);
        var mj := Maj(a, b, c);
        var t2 := Add(s0, mj);
        h := g;
        g := f;
        f := e;
        e := Add(d, t1);
        d := c;
        c := b;
        b := a;
        a := Add(t1, t2);
        i := i + 1;
      }
      Accumulate(Words(a, b, c, d, e, f, g, h));
    }

    method Accumulate(r: Words)
      requires state.Length == 8
      modifies state
      ensures Chaining() == AddWords(old(Chaining()), r)
    {
      hide Add;
      state[0] := Add(state[0], r.a);
      state[1] := Add(state[1], r.b);
      state[2] := Add(state[2], r.c);
      state[3] := Add(state[3], r.d);
      state[4] := Add(state[4], r.e);
      state[5] := Add(state[5], r.f);
      state[6] := Add(state[6], r.g);
      state[7] := Add(state[7], r.h);
    }
  }

  /** The schedule array filled in place, each word from earlier ones. */
  method ExpandSchedule(block: Block) returns (w: array<Word>)
    ensures fresh(w) && w.Length == 64
    ensures forall t :: 0 <= t < 64 ==> w[t] == Schedule(block, t)
  {
    hide Add, BigEndianWord, SmallSigma0, SmallSigma1;
    w := new Word[64];
    var i := 0;
    while i < 16
      invariant 0 <= i <= 16
      invariant forall t :: 0 <= t < i ==> w[t] == Schedule(block, t)
    {
      w[i] := BigEndianWord(block[i * 4..i * 4 + 4]);
      i := i + 1;
    }
    while i < 64
      invariant 16 <= i <= 64
      invariant forall t :: 0 <= t < i ==> w[t] == Schedule(block, t)
    {
      var s0 := SmallSigma0(w[i - 15]);
      var s1 := SmallSigma1(w[i - 2]);
      w[i] := Add(Add(Add(w[i - 16], s0), w[i - 7]), s1);
      i := i + 1;
    }
  }

  lemma OneBlockLess(n: nat)
    requires n >= BLOCK_BYTES
    ensures (n - BLOCK_BYTES) % BLOCK_BYTES == n % BLOCK_BYTES
  {
  }

  lemma BitsOfConcat(m: seq<Byte>, chunk: seq<Byte>)
    ensures (BitLength(m) + 8 * |chunk| % TWO_64) % TWO_64 == BitLength(m + chunk)
  {
    RemainderSum(8 * |m|, 8 * |chunk|);
  }

  lemma RemainderSum(a: nat, b: nat)
    ensures (a % TWO_64 + b % TWO_64) % TWO_64 == (a + b) % TWO_64
  {
    var r, s := a % TWO_64, b % TWO_64;
    var q := a / TWO_64 + b / TWO_64;
    assert a + b == TWO_64 * q + (r + s);
  }

  lemma Absorb(start: Words, whole: seq<Byte>, block: Block)
    requires |whole| % BLOCK_BYTES == 0
    ensures HashBlocks(start, whole + block) == CompressBlock(HashBlocks(start, whole), block)
  {
    HashBlocksConcat(start, whole, block);
  }

  function Concat(chunks: seq<seq<Byte>>): seq<Byte> {
    if |chunks| == 0 then [] else Concat(chunks[..|chunks| - 1]) + chunks[|chunks| - 1]
  }

  /** However a message is cut into updates, the digest is that of the whole message. */
  method DigestOfChunks(chunks: seq<seq<Byte>>) returns (out: seq<Byte>)
    ensures out == Digest(Concat(chunks))
  {
    var hasher := new Sha256Stream();
    var i := 0;
    while i < |chunks|
      invariant 0 <= i <= |chunks|
      invariant fresh(hasher) && fresh(hasher.state)
      invariant hasher.Valid() && hasher.message == Concat(chunks[..i])
    {
      assert chunks[..i + 1][..i] == chunks[..i];
      hasher.Update(chunks[i]);
      i := i + 1;
    }
    assert chunks[..i] == chunks;
    out := hasher.FinalizeBytes();
  }

  // ---- RFC 2104 --------------------------------------------------------------------------------

  function XorAll(key: seq<Byte>, pad: Byte): (r: seq<Byte>)
    ensures |r| == |key|
  {
    seq(|key|, i requires 0 <= i < |key| => key[i] ^ pad)
  }

  /** The key padded with zeros to one block, hashed first when longer than that. */
  function BlockKey(key: seq<Byte>): (k: Block) {
    var short := if |key| > BLOCK_BYTES then Digest(key) else key;
    short + ZeroBytes(BLOCK_BYTES - |short|)
  }

  /** H((K xor opad) || H((K xor ipad) || data)). */
  function Hmac(key: seq<Byte>, data: seq<Byte>): seq<Byte> {
    Digest(XorAll(BlockKey(key), 0x5c) + Digest(XorAll(BlockKey(key), 0x36) + data))
  }

  method HmacSha256(key: seq<Byte>, data: seq<Byte>) returns (mac: seq<Byte>)
    ensures mac == Hmac(key, data)
  {
    hide Digest, XorAll;
    var k0 := DeriveBlockKey(key);
    var ipad, opad := XorPads(k0);
    var innerHash := DigestOfTwo(ipad[..], data);
    mac := DigestOfTwo(opad[..], innerHash);
  }

  method DigestOfTwo(first: seq<Byte>, second: seq<Byte>) returns (out: seq<Byte>)
    ensures out == Digest(first + second)
  {
    hide Digest;
    var hasher := new Sha256Stream();
    hasher.Update(first);
    assert hasher.message == first;
    hasher.Update(second);
    out := hasher.FinalizeBytes();
  }

  method DeriveBlockKey(key: seq<Byte>) returns (k0: Block)
    ensures k0 == BlockKey(key)
  {
    hide Digest;
    var short := key;
    if |key| > BLOCK_BYTES {
      var hasher := new Sha256Stream();
      hasher.Update(key);
      assert hasher.message == key;
      short := hasher.FinalizeBytes();
    }
    k0 := short + ZeroBytes(BLOCK_BYTES - |short|);
  }

  method XorPads(k0: Block) returns (ipad: array<Byte>, opad: array<Byte>)
    ensures ipad[..] == XorAll(k0, 0x36) && opad[..] == XorAll(k0, 0x5c)
  {
    ipad, opad := new Byte[BLOCK_BYTES], new Byte[BLOCK_BYTES];
    var i := 0;
    while i < BLOCK_BYTES
      invariant 0 <= i <= BLOCK_BYTES
      invariant forall j :: 0 <= j < i ==> ipad[j] == k0[j] ^ 0x36 && opad[j] == k0[j] ^ 0x5c
    {
      ipad[i] := k0[i] ^ 0x36;
      opad[i] := k0[i] ^ 0x5c;
      i := i + 1;
    }
  }

  /** Keys longer than a block act through their digest; shorter ones through zero padding. */
  lemma HmacKeyEquivalence(key: seq<Byte>, data: seq<Byte>)
    ensures |key| > BLOCK_BYTES ==> Hmac(key, data) == Hmac(Digest(key), data)
    ensures |key| < BLOCK_BYTES ==> Hmac(key, data) == Hmac(key + [0], data)
  {
    hide Digest;
    if |key| < BLOCK_BYTES {
      assert BlockKey(key + [0]) == BlockKey(key);
    }
  }

  /** Different block keys give different inner and outer pads, and the two never coincide. */
  lemma PadsSeparate(key: seq<Byte>, other: seq<Byte>)
    ensures XorAll(BlockKey(key), 0x36) != XorAll(BlockKey(key), 0x5c)
    ensures XorAll(BlockKey(key), 0x36) == XorAll(BlockKey(other), 0x36) ==> BlockKey(key) == BlockKey(other)
  {
    hide Digest;
    var k, l := BlockKey(key), BlockKey(other);
    XorApart(k[0]);
    assert XorAll(k, 0x36)[0] != XorAll(k, 0x5c)[0];
    if XorAll(k, 0x36) == XorAll(l, 0x36) {
      forall i | 0 <= i < BLOCK_BYTES
        ensures k[i] == l[i]
      {
        assert XorAll(k, 0x36)[i] == XorAll(l, 0x36)[i];
        XorCancels(k[i], l[i]);
      }
    }
  }

  lemma XorApart(b: Byte)
    ensures b ^ 0x36 != b ^ 0x5c
  {
  }

  lemma XorCancels(a: Byte, b: Byte)
    requires a ^ 0x36 == b ^ 0x36
    ensures a == b
  {
  }
}
