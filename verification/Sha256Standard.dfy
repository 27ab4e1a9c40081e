/**
 The constants and functions of FIPS 180-4 by what they are, and the digest of the one-block message
 of its example, worked out word by word.
 */
module Sha256Standard {
  import opened Sha256

  // ---- section 4.1.2: Ch chooses, Maj takes the majority -----------------------------------

  predicate Bit(x: Word, i: bv5) {
    (x >> i) & 1 == 1
  }

  lemma Where(w: Word, x: Word, y: Word, i: bv5)
    requires w & x == y & x
    ensures Bit(x, i) ==> Bit(w, i) == Bit(y, i)
  {
  }

  lemma Elsewhere(w: Word, x: Word, z: Word, i: bv5)
    requires w & !x == z & !x
    ensures !Bit(x, i) ==> Bit(w, i) == Bit(z, i)
  {
  }

  lemma Agreed(w: Word, x: Word, y: Word, i: bv5)
    requires w & !(x ^ y) == x & !(x ^ y)
    ensures Bit(x, i) == Bit(y, i) ==> Bit(w, i) == Bit(x, i)
  {
  }

  lemma ChosenY(x: Word, y: Word, z: Word, i: bv5)
    ensures Bit(x, i) ==> Bit(Ch(x, y, z), i) == Bit(y, i)
  {
    assert Ch(x, y, z) & x == y & x;
    Where(Ch(x, y, z), x, y, i);
  }

  lemma ChosenZ(x: Word, y: Word, z: Word, i: bv5)
    ensures !Bit(x, i) ==> Bit(Ch(x, y, z), i) == Bit(z, i)
  {
    assert Ch(x, y, z) & !x == z & !x;
    Elsewhere(Ch(x, y, z), x, z, i);
  }

  /** Each bit of Ch is that of y where x is set and that of z elsewhere. */
  lemma ChChooses(x: Word, y: Word, z: Word, i: bv5)
    ensures Bit(Ch(x, y, z), i) == if Bit(x, i) then Bit(y, i) else Bit(z, i)
  {
    hide Bit, Ch;
    ChosenY(x, y, z, i);
    ChosenZ(x, y, z, i);
  }

  lemma MajorityXY(x: Word, y: Word, z: Word, i: bv5)
    ensures Bit(x, i) == Bit(y, i) ==> Bit(Maj(x, y, z), i) == Bit(x, i)
  {
    assert Maj(x, y, z) & !(x ^ y) == x & !(x ^ y);
    Agreed(Maj(x, y, z), x, y, i);
  }

  lemma MajorityXZ(x: Word, y: Word, z: Word, i: bv5)
    ensures Bit(x, i) == Bit(z, i) ==> Bit(Maj(x, y, z), i) == Bit(x, i)
  {
    assert Maj(x, y, z) & !(x ^ z) == x & !(x ^ z);
    Agreed(Maj(x, y, z), x, z, i);
  }

  lemma MajorityYZ(x: Word, y: Word, z: Word, i: bv5)
    ensures Bit(y, i) == Bit(z, i) ==> Bit(Maj(x, y, z), i) == Bit(y, i)
  {
    assert Maj(x, y, z) & !(y ^ z) == y & !(y ^ z);
    Agreed(Maj(x, y, z), y, z, i);
  }

  /** Each bit of Maj is set exactly when at least two of the three are. */
  lemma MajTakesMajority(x: Word, y: Word, z: Word, i: bv5)
    ensures Bit(Maj(x, y, z), i) <==>
            (Bit(x, i) && Bit(y, i)) || (Bit(x, i) && Bit(z, i)) || (Bit(y, i) && Bit(z, i))
  {
    hide Bit, Maj;
    MajorityXY(x, y, z, i);
    MajorityXZ(x, y, z, i);
    MajorityYZ(x, y, z, i);
  }

  // ---- sections 4.2.2 and 5.3.3: the constants ---------------------------------------------

  /** The first 64 primes. */
  const PRIMES: seq<nat> :=
    [2, 3, 5, 7] + [11, 13, 17, 19]
    + [23, 29, 31, 37] + [41, 43, 47, 53]
    + [59, 61, 67, 71] + [73, 79, 83, 89]
    + [97, 101, 103, 107] + [109, 113, 127, 131]
    + [137, 139, 149, 151] + [157, 163, 167, 173]
    + [179, 181, 191, 193] + [197, 199, 211, 223]
    + [227, 229, 233, 239] + [241, 251, 257, 263]
    + [269, 271, 277, 281] + [283, 293, 307, 311]

  const TWO_32: nat := 0x1_0000_0000
  const TWO_96: nat := TWO_32 * TWO_32 * TWO_32

  /** With whole part q and this fraction, a number of thirty-two fractional bits is a root cut short. */
  ghost predicate CubeRootCut(q: nat, fraction: Word, p: nat) {
    var n := q * TWO_32 + fraction as nat;
    n * n * n <= p * TWO_96 < (n + 1) * (n + 1) * (n + 1)
  }

  ghost predicate SquareRootCut(q: nat, fraction: Word, p: nat) {
    var n := q * TWO_32 + fraction as nat;
    n * n <= p * TWO_32 * TWO_32 < (n + 1) * (n + 1)
  }

  ghost predicate CubeRootFraction(fraction: Word, p: nat) {
    exists q :: CubeRootCut(q, fraction, p)
  }

  /** Eight elements of a sequence. */
  ghost predicate Row<T>(s: seq<T>, t: nat, a: T, b: T, c: T, d: T, e: T, f: T, g: T, h: T) {
    && t + 8 <= |s|
    && s[t] == a && s[t + 1] == b && s[t + 2] == c && s[t + 3] == d
    && s[t + 4] == e && s[t + 5] == f && s[t + 6] == g && s[t + 7] == h
  }

  lemma ConstantRow0()
    ensures Row(ROUND_CONSTANTS, 0, 0x428a2f98, 0x71374491, 0xb5c0fbcf, 0xe9b5dba5,
                0x3956c25b, 0x59f111f1, 0x923f82a4, 0xab1c5ed5)
  {
  }

  lemma PrimeRow0()
    ensures Row(PRIMES, 0, 2, 3, 5, 7, 11, 13, 17, 19)
  {
  }

  lemma ConstantRow1()
    ensures Row(ROUND_CONSTANTS, 8, 0xd807aa98, 0x12835b01, 0x243185be, 0x550c7dc3,
                0x72be5d74, 0x80deb1fe, 0x9bdc06a7, 0xc19bf174)
  {
  }

  lemma PrimeRow1()
    ensures Row(PRIMES, 8, 23, 29, 31, 37, 41, 43, 47, 53)
  {
  }

  lemma ConstantRow2()
    ensures Row(ROUND_CONSTANTS, 16, 0xe49b69c1, 0xefbe4786, 0x0fc19dc6, 0x240ca1cc,
                0x2de92c6f, 0x4a7484aa, 0x5cb0a9dc, 0x76f988da)
  {
  }

  lemma PrimeRow2()
    ensures Row(PRIMES, 16, 59, 61, 67, 71, 73, 79, 83, 89)
  {
  }

  lemma ConstantRow3()
    ensures Row(ROUND_CONSTANTS, 24, 0x983e5152, 0xa831c66d, 0xb00327c8, 0xbf597fc7,
                0xc6e00bf3, 0xd5a79147, 0x06ca6351, 0x14292967)
  {
  }

  lemma PrimeRow3()
    ensures Row(PRIMES, 24, 97, 101, 103, 107, 109, 113, 127, 131)
  {
  }

  lemma ConstantRow4()
    ensures Row(ROUND_CONSTANTS, 32, 0x27b70a85, 0x2e1b2138, 0x4d2c6dfc, 0x53380d13,
                0x650a7354, 0x766a0abb, 0x81c2c92e, 0x92722c85)
  {
  }

  lemma PrimeRow4()
    ensures Row(PRIMES, 32, 137, 139, 149, 151, 157, 163, 167, 173)
  {
  }

  lemma ConstantRow5()
    ensures Row(ROUND_CONSTANTS, 40, 0xa2bfe8a1, 0xa81a664b, 0xc24b8b70, 0xc76c51a3,
                0xd192e819, 0xd6990624, 0xf40e3585, 0x106aa070)
  {
  }

  lemma PrimeRow5()
    ensures Row(PRIMES, 40, 179, 181, 191, 193, 197, 199, 211, 223)
  {
  }

  lemma ConstantRow6()
    ensures Row(ROUND_CONSTANTS, 48, 0x19a4c116, 0x1e376c08, 0x2748774c, 0x34b0bcb5,
                0x391c0cb3, 0x4ed8aa4a, 0x5b9cca4f, 0x682e6ff3)
  {
  }

  lemma PrimeRow6()
    ensures Row(PRIMES, 48, 227, 229, 233, 239, 241, 251, 257, 263)
  {
  }

  lemma ConstantRow7()
    ensures Row(ROUND_CONSTANTS, 56, 0x748f82ee, 0x78a5636f, 0x84c87814, 0x8cc70208,
                0x90befffa, 0xa4506ceb, 0xbef9a3f7, 0xc67178f2)
  {
  }

  lemma PrimeRow7()
    ensures Row(PRIMES, 56, 269, 271, 277, 281, 283, 293, 307, 311)
  {
  }

  /** The round constants before the n-th are the fractions of the cube roots of the primes. */
  ghost predicate RootsBefore(n: nat) {
    && n <= |ROUND_CONSTANTS| && n <= |PRIMES|
    && forall i :: 0 <= i < n ==> CubeRootFraction(ROUND_CONSTANTS[i], PRIMES[i])
  }

  lemma CutAt(i: nat, q: nat, fraction: Word, p: nat)
    requires i < 64 && RootsBefore(i) && ROUND_CONSTANTS[i] == fraction && PRIMES[i] == p && CubeRootCut(q, fraction, p)
    ensures RootsBefore(i + 1)
  {
  }

  lemma CubeRoots0()
    requires RootsBefore(0)
    ensures RootsBefore(4)
  {
    hide RootsBefore;
    ConstantRow0();
    PrimeRow0();
    CutAt(0, 1, 0x428a2f98, 2);
    CutAt(1, 1, 0x71374491, 3);
    CutAt(2, 1, 0xb5c0fbcf, 5);
    CutAt(3, 1, 0xe9b5dba5, 7);
  }

  lemma CubeRoots1()
    requires RootsBefore(4)
    ensures RootsBefore(8)
  {
    hide RootsBefore;
    ConstantRow0();
    PrimeRow0();
    CutAt(4, 2, 0x3956c25b, 11);
    CutAt(5, 2, 0x59f111f1, 13);
    CutAt(6, 2, 0x923f82a4, 17);
    CutAt(7, 2, 0xab1c5ed5, 19);
  }

  lemma CubeRoots2()
    requires RootsBefore(8)
    ensures RootsBefore(12)
  {
    hide RootsBefore;
    ConstantRow1();
    PrimeRow1();
    CutAt(8, 2, 0xd807aa98, 23);
    CutAt(9, 3, 0x12835b01, 29);
    CutAt(10, 3, 0x243185be, 31);
    CutAt(11, 3, 0x550c7dc3, 37);
  }

  lemma CubeRoots3()
    requires RootsBefore(12)
    ensures RootsBefore(16)
  {
    hide RootsBefore;
    ConstantRow1();
    PrimeRow1();
    CutAt(12, 3, 0x72be5d74, 41);
    CutAt(13, 3, 0x80deb1fe, 43);
    CutAt(14, 3, 0x9bdc06a7, 47);
    CutAt(15, 3, 0xc19bf174, 53);
  }

  lemma CubeRoots4()
    requires RootsBefore(16)
    ensures RootsBefore(20)
  {
    hide RootsBefore;
    ConstantRow2();
    PrimeRow2();
    CutAt(16, 3, 0xe49b69c1, 59);
    CutAt(17, 3, 0xefbe4786, 61);
    CutAt(18, 4, 0x0fc19dc6, 67);
    CutAt(19, 4, 0x240ca1cc, 71);
  }

  lemma CubeRoots5()
    requires RootsBefore(20)
    ensures RootsBefore(24)
  {
    hide RootsBefore;
    ConstantRow2();
    PrimeRow2();
    CutAt(20, 4, 0x2de92c6f, 73);
    CutAt(21, 4, 0x4a7484aa, 79);
    CutAt(22, 4, 0x5cb0a9dc, 83);
    CutAt(23, 4, 0x76f988da, 89);
  }

  lemma CubeRoots6()
    requires RootsBefore(24)
    ensures RootsBefore(28)
  {
    hide RootsBefore;
    ConstantRow3();
    PrimeRow3();
    CutAt(24, 4, 0x983e5152, 97);
    CutAt(25, 4, 0xa831c66d, 101);
    CutAt(26, 4, 0xb00327c8, 103);
    CutAt(27, 4, 0xbf597fc7, 107);
  }

  lemma CubeRoots7()
    requires RootsBefore(28)
    ensures RootsBefore(32)
  {
    hide RootsBefore;
    ConstantRow3();
    PrimeRow3();
    CutAt(28, 4, 0xc6e00bf3, 109);
    CutAt(29, 4, 0xd5a79147, 113);
    CutAt(30, 5, 0x06ca6351, 127);
    CutAt(31, 5, 0x14292967, 131);
  }

  lemma CubeRoots8()
    requires RootsBefore(32)
    ensures RootsBefore(36)
  {
    hide RootsBefore;
    ConstantRow4();
    PrimeRow4();
    CutAt(32, 5, 0x27b70a85, 137);
    CutAt(33, 5, 0x2e1b2138, 139);
    CutAt(34, 5, 0x4d2c6dfc, 149);
    CutAt(35, 5, 0x53380d13, 151);
  }

  lemma CubeRoots9()
    requires RootsBefore(36)
    ensures RootsBefore(40)
  {
    hide RootsBefore;
    ConstantRow4();
    PrimeRow4();
    CutAt(36, 5, 0x650a7354, 157);
    CutAt(37, 5, 0x766a0abb, 163);
    CutAt(38, 5, 0x81c2c92e, 167);
    CutAt(39, 5, 0x92722c85, 173);
  }

  lemma CubeRoots10()
    requires RootsBefore(40)
    ensures RootsBefore(44)
  {
    hide RootsBefore;
    ConstantRow5();
    PrimeRow5();
    CutAt(40, 5, 0xa2bfe8a1, 179);
    CutAt(41, 5, 0xa81a664b, 181);
    CutAt(42, 5, 0xc24b8b70, 191);
    CutAt(43, 5, 0xc76c51a3, 193);
  }

  lemma CubeRoots11()
    requires RootsBefore(44)
    ensures RootsBefore(48)
  {
    hide RootsBefore;
    ConstantRow5();
    PrimeRow5();
    CutAt(44, 5, 0xd192e819, 197);
    CutAt(45, 5, 0xd6990624, 199);
    CutAt(46, 5, 0xf40e3585, 211);
    CutAt(47, 6, 0x106aa070, 223);
  }

  lemma CubeRoots12()
    requires RootsBefore(48)
    ensures RootsBefore(52)
  {
    hide RootsBefore;
    ConstantRow6();
    PrimeRow6();
    CutAt(48, 6, 0x19a4c116, 227);
    CutAt(49, 6, 0x1e376c08, 229);
    CutAt(50, 6, 0x2748774c, 233);
    CutAt(51, 6, 0x34b0bcb5, 239);
  }

  lemma CubeRoots13()
    requires RootsBefore(52)
    ensures RootsBefore(56)
  {
    hide RootsBefore;
    ConstantRow6();
    PrimeRow6();
    CutAt(52, 6, 0x391c0cb3, 241);
    CutAt(53, 6, 0x4ed8aa4a, 251);
    CutAt(54, 6, 0x5b9cca4f, 257);
    CutAt(55, 6, 0x682e6ff3, 263);
  }

  lemma CubeRoots14()
    requires RootsBefore(56)
    ensures RootsBefore(60)
  {
    hide RootsBefore;
    ConstantRow7();
    PrimeRow7();
    CutAt(56, 6, 0x748f82ee, 269);
    CutAt(57, 6, 0x78a5636f, 271);
    CutAt(58, 6, 0x84c87814, 277);
    CutAt(59, 6, 0x8cc70208, 281);
  }

  lemma CubeRoots15()
    requires RootsBefore(60)
    ensures RootsBefore(64)
  {
    hide RootsBefore;
    ConstantRow7();
    PrimeRow7();
    CutAt(60, 6, 0x90befffa, 283);
    CutAt(61, 6, 0xa4506ceb, 293);
    CutAt(62, 6, 0xbef9a3f7, 307);
    CutAt(63, 6, 0xc67178f2, 311);
  }

  /** The round constants are the first thirty-two fractional bits of the cube roots of the
      first 64 primes. */
  lemma RoundConstantsAreCubeRoots()
    ensures |ROUND_CONSTANTS| == |PRIMES| == 64
    ensures forall i :: 0 <= i < 64 ==> CubeRootFraction(ROUND_CONSTANTS[i], PRIMES[i])
  {
    assert RootsBefore(0);
    CubeRoots0();
    CubeRoots1();
    CubeRoots2();
    CubeRoots3();
    CubeRoots4();
    CubeRoots5();
    CubeRoots6();
    CubeRoots7();
    CubeRoots8();
    CubeRoots9();
    CubeRoots10();
    CubeRoots11();
    CubeRoots12();
    CubeRoots13();
    CubeRoots14();
    CubeRoots15();
  }

  /** And the initial words those of the square roots of the first eight. */
  lemma InitialWordsAreSquareRoots()
    ensures SquareRootCut(1, INITIAL.a, 2)
    ensures SquareRootCut(1, INITIAL.b, 3)
    ensures SquareRootCut(2, INITIAL.c, 5)
    ensures SquareRootCut(2, INITIAL.d, 7)
    ensures SquareRootCut(3, INITIAL.e, 11)
    ensures SquareRootCut(3, INITIAL.f, 13)
    ensures SquareRootCut(4, INITIAL.g, 17)
    ensures SquareRootCut(4, INITIAL.h, 19)
  {
  }

  // ---- section 5.1.1: what padding adds ------------------------------------------------------

  predicate ByteBit(b: Byte, i: bv3) {
    (b >> i) & 1 == 1
  }

  /** The message, a one bit, fewer than a block of zeros and the length in bits, modulo 2^64, most
      significant bit first. */
  lemma PaddingRule(m: seq<Byte>)
    ensures var p, n := Pad(m), |Pad(m)|;
            && n % 64 == 0 && |m| + 9 <= n < |m| + 9 + 64
            && p[..|m|] == m && p[|m|] == 0x80
            && (forall i :: |m| < i < n - 8 ==> p[i] == 0)
            && (forall k :: 0 <= k < 8 ==> LengthByte(p[n - 1 - k], 8 * |m| % 0x1_0000_0000_0000_0000, 8 * k))
  {
    hide LengthByte, Bits;
    PadParts(m);
    assert Pad(m)[|m| + 1..|Pad(m)| - 8] == ZeroBytes(Gap(|m|));
    forall k | 0 <= k < 8
      ensures LengthByte(Pad(m)[|Pad(m)| - 1 - k], BitLength(m), 8 * k)
    {
      LengthField(BitLength(m), k);
      assert Pad(m)[|Pad(m)| - 1 - k] == BigEndian64(BitLength(m))[7 - k];
    }
  }

  /** The eight bits of a byte are those of the number from bit `low` up. */
  ghost predicate LengthByte(b: Byte, n: nat, low: nat) {
    && ByteBit(b, 0) == BitOf(n, low) && ByteBit(b, 1) == BitOf(n, low + 1)
    && ByteBit(b, 2) == BitOf(n, low + 2) && ByteBit(b, 3) == BitOf(n, low + 3)
    && ByteBit(b, 4) == BitOf(n, low + 4) && ByteBit(b, 5) == BitOf(n, low + 5)
    && ByteBit(b, 6) == BitOf(n, low + 6) && ByteBit(b, 7) == BitOf(n, low + 7)
  }

  ghost predicate BitOf(n: nat, k: nat) {
    n / Power(k) % 2 == 1
  }

  function Power(k: nat): (p: nat)
    ensures p > 0
  {
    if k == 0 then 1 else 2 * Power(k - 1)
  }

  lemma {:induction false} BitsAre(n: nat, k: nat, i: nat)
    requires i < k
    ensures Bits(n, k)[i] == BitOf(n, i)
  {
    if i > 0 {
      BitsAre(n / 2, k - 1, i - 1);
      HalvesTwice(n, Power(i - 1));
    }
  }

  lemma HalvesTwice(n: nat, p: nat)
    requires p > 0
    ensures n / (2 * p) == n / 2 / p
  {
    var q := n / 2 / p;
    var r := n / 2 % p;
    assert n / 2 == q * p + r;
    assert n == (2 * p) * q + (2 * r + n % 2);
    assert 0 <= 2 * r + n % 2 < 2 * p;
    QuotientIs(n, 2 * p, q, 2 * r + n % 2);
  }

  lemma MultipleFar(d: nat, z: int)
    requires d > 0 && z != 0
    ensures d * z >= d || d * z <= 0 - d
  {
    if z > 0 {
      assert d * (z - 1) >= 0;
    } else {
      assert d * (-z - 1) >= 0;
    }
  }

  lemma QuotientIs(n: nat, d: nat, q: nat, r: nat)
    requires d > 0 && n == d * q + r && r < d
    ensures n / d == q
  {
    var z := n / d - q;
    assert d * z == r - n % d by {
      assert n == d * (n / d) + n % d;
    }
    if z != 0 {
      MultipleFar(d, z);
    }
  }

  lemma PackBits(b: seq<bool>)
    requires |b| == 8
    ensures ByteBit(Pack(b), 0) == b[0] && ByteBit(Pack(b), 1) == b[1]
    ensures ByteBit(Pack(b), 2) == b[2] && ByteBit(Pack(b), 3) == b[3]
    ensures ByteBit(Pack(b), 4) == b[4] && ByteBit(Pack(b), 5) == b[5]
    ensures ByteBit(Pack(b), 6) == b[6] && ByteBit(Pack(b), 7) == b[7]
  {
  }

  lemma FieldByte(n: nat, k: nat)
    requires k < 8
    ensures BigEndian64(n)[7 - k] == Pack(Bits(n, 64)[8 * k..8 * k + 8])
  {
    hide Pack, Bits;
  }

  lemma LengthField(n: nat, k: nat)
    requires k < 8
    ensures LengthByte(BigEndian64(n)[7 - k], n, 8 * k)
  {
    hide Pack, ByteBit, BitOf, Bits, BigEndian64;
    var b := Bits(n, 64)[8 * k..8 * k + 8];
    FieldByte(n, k);
    PackBits(b);
    forall i | 0 <= i < 8
      ensures b[i] == BitOf(n, 8 * k + i)
    {
      BitsAre(n, 64, 8 * k + i);
    }
  }

  lemma WordsFromBytes(w: Word)
    ensures BigEndianWord(WordBytes(w)) == w
  {
  }

  // ---- the example: the message "abc" -------------------------------------------------------

  const ABC: seq<Byte> := [0x61, 0x62, 0x63]

  lemma AbcPadded()
    ensures |Pad(ABC)| == 64
    ensures Pad(ABC)[0] == 0x61 && Pad(ABC)[1] == 0x62 && Pad(ABC)[2] == 0x63 && Pad(ABC)[3] == 0x80
    ensures forall i :: 4 <= i < 63 ==> Pad(ABC)[i] == 0
    ensures Pad(ABC)[63] == 24
  {
    hide Pad, BigEndian64;
    var p := Pad(ABC);
    PadParts(ABC);
    PaddingRule(ABC);
    assert p[0] == ABC[0] && p[1] == ABC[1] && p[2] == ABC[2];
    AbcLength();
    forall i | 56 <= i < 64
      ensures p[i] == BigEndian64(24)[i - 56]
    {
      assert p[56..][i - 56] == p[i];
    }
  }

  lemma AbcBits()
    ensures forall i :: 0 <= i < 64 ==> (Bits(24, 64)[i] <==> i == 3 || i == 4)
  {
    hide Bits;
    forall i | 0 <= i < 64
      ensures Bits(24, 64)[i] <==> i == 3 || i == 4
    {
      BitsAre(24, 64, i);
      if i >= 5 {
        PowerGrows(i);
      }
    }
  }

  lemma {:induction false} PowerGrows(i: nat)
    requires i >= 5
    ensures Power(i) >= 32
  {
    if i > 5 {
      PowerGrows(i - 1);
    }
  }

  lemma AbcLength()
    ensures BigEndian64(24) == [0, 0, 0, 0, 0, 0, 0, 24]
  {
    hide Bits, Pack;
    AbcByte(0);
    AbcByte(8);
    AbcByte(16);
    AbcByte(24);
    AbcByte(32);
    AbcByte(40);
    AbcByte(48);
    AbcByte(56);
  }

  lemma AbcByte(low: nat)
    requires low == 0 || 8 <= low <= 56
    ensures Pack(Bits(24, 64)[low..low + 8]) == if low == 0 then 24 else 0
  {
    AbcBits();
    hide Bits, Pack;
    if low == 0 {
      PackLow(Bits(24, 64)[..8]);
      assert Bits(24, 64)[..8] == Bits(24, 64)[low..low + 8];
    } else {
      PackNone(Bits(24, 64)[low..low + 8]);
    }
  }

  lemma PackNone(b: seq<bool>)
    requires |b| == 8 && forall i :: 0 <= i < 8 ==> !b[i]
    ensures Pack(b) == 0
  {
  }

  lemma PackLow(b: seq<bool>)
    requires |b| == 8 && !b[0] && !b[1] && !b[2] && b[3] && b[4] && !b[5] && !b[6] && !b[7]
    ensures Pack(b) == 24
  {
  }

  /** Words t to t + 7 of the message schedule. */
  ghost predicate Words8(block: Block, t: nat, a: Word, b: Word, c: Word, d: Word, e: Word, f: Word, g: Word, h: Word) {
    && Schedule(block, t) == a && Schedule(block, t + 1) == b
    && Schedule(block, t + 2) == c && Schedule(block, t + 3) == d
    && Schedule(block, t + 4) == e && Schedule(block, t + 5) == f
    && Schedule(block, t + 6) == g && Schedule(block, t + 7) == h
  }

  lemma FirstWord(block: Block, t: nat, a: Byte, b: Byte, c: Byte, d: Byte)
    requires t < 16 && block[4 * t] == a && block[4 * t + 1] == b && block[4 * t + 2] == c && block[4 * t + 3] == d
    ensures Schedule(block, t) == BigEndianWord([a, b, c, d])
  {
    assert block[4 * t..4 * t + 4] == [a, b, c, d];
  }

  lemma AbcWords0()
    ensures |Pad(ABC)| == 64 && Words8(Pad(ABC), 0, 0x61626380, 0, 0, 0, 0, 0, 0, 0)
    ensures Words8(Pad(ABC), 8, 0, 0, 0, 0, 0, 0, 0, 0x00000018)
  {
    AbcPadded();
    hide Pad, Schedule;
    FirstWord(Pad(ABC), 0, 0x61, 0x62, 0x63, 0x80);
    forall t | 0 < t < 15
      ensures Schedule(Pad(ABC), t) == 0
    {
      FirstWord(Pad(ABC), t, 0, 0, 0, 0);
    }
    FirstWord(Pad(ABC), 15, 0, 0, 0, 24);
  }

  lemma NextWord(block: Block, t: nat, a: Word, b: Word, c: Word, d: Word)
    requires t >= 16 && Schedule(block, t - 16) == a && Schedule(block, t - 15) == b
    requires Schedule(block, t - 7) == c && Schedule(block, t - 2) == d
    ensures Schedule(block, t) == Add(Add(Add(a, SmallSigma0(b)), c), SmallSigma1(d))
  {
  }

  lemma AbcWords1()
    ensures |Pad(ABC)| == 64
    ensures Words8(Pad(ABC), 16, 0x61626380, 0x000f0000, 0x7da86405, 0x600003c6,
                   0x3e9d7b78, 0x0183fc00, 0x12dcbfdb, 0xe2e2c38e)
  {
    AbcWords0();
    hide Schedule, Pad;
    NextWord(Pad(ABC), 16, 0x61626380, 0x00000000, 0x00000000, 0x00000000);
    NextWord(Pad(ABC), 17, 0x00000000, 0x00000000, 0x00000000, 0x00000018);
    NextWord(Pad(ABC), 18, 0x00000000, 0x00000000, 0x00000000, 0x61626380);
    NextWord(Pad(ABC), 19, 0x00000000, 0x00000000, 0x00000000, 0x000f0000);
    NextWord(Pad(ABC), 20, 0x00000000, 0x00000000, 0x00000000, 0x7da86405);
    NextWord(Pad(ABC), 21, 0x00000000, 0x00000000, 0x00000000, 0x600003c6);
    NextWord(Pad(ABC), 22, 0x00000000, 0x00000000, 0x00000018, 0x3e9d7b78);
    NextWord(Pad(ABC), 23, 0x00000000, 0x00000000, 0x61626380, 0x0183fc00);
  }

  lemma AbcWords2()
    ensures |Pad(ABC)| == 64
    ensures Words8(Pad(ABC), 24, 0xc8215c1a, 0xb73679a2, 0xe5bc3909, 0x32663c5b,
                   0x9d209d67, 0xec8726cb, 0x702138a4, 0xd3b7973b)
  {
    AbcWords0();
    AbcWords1();
    hide Schedule, Pad;
    NextWord(Pad(ABC), 24, 0x00000000, 0x00000000, 0x000f0000, 0x12dcbfdb);
    NextWord(Pad(ABC), 25, 0x00000000, 0x00000000, 0x7da86405, 0xe2e2c38e);
    NextWord(Pad(ABC), 26, 0x00000000, 0x00000000, 0x600003c6, 0xc8215c1a);
    NextWord(Pad(ABC), 27, 0x00000000, 0x00000000, 0x3e9d7b78, 0xb73679a2);
    NextWord(Pad(ABC), 28, 0x00000000, 0x00000000, 0x0183fc00, 0xe5bc3909);
    NextWord(Pad(ABC), 29, 0x00000000, 0x00000000, 0x12dcbfdb, 0x32663c5b);
    NextWord(Pad(ABC), 30, 0x00000000, 0x00000018, 0xe2e2c38e, 0x9d209d67);
    NextWord(Pad(ABC), 31, 0x00000018, 0x61626380, 0xc8215c1a, 0xec8726cb);
  }

  lemma AbcWords3()
    ensures |Pad(ABC)| == 64
    ensures Words8(Pad(ABC), 32, 0x93f5997f, 0x3b68ba73, 0xaff4ffc1, 0xf10a5c62,
                   0x0a8b3996, 0x72af830a, 0x9409e33e, 0x24641522)
  {
    AbcWords0();
    AbcWords1();
    AbcWords2();
    hide Schedule, Pad;
    NextWord(Pad(ABC), 32, 0x61626380, 0x000f0000, 0xb73679a2, 0x702138a4);
    NextWord(Pad(ABC), 33, 0x000f0000, 0x7da86405, 0xe5bc3909, 0xd3b7973b);
    NextWord(Pad(ABC), 34, 0x7da86405, 0x600003c6, 0x32663c5b, 0x93f5997f);
    NextWord(Pad(ABC), 35, 0x600003c6, 0x3e9d7b78, 0x9d209d67, 0x3b68ba73);
    NextWord(Pad(ABC), 36, 0x3e9d7b78, 0x0183fc00, 0xec8726cb, 0xaff4ffc1);
    NextWord(Pad(ABC), 37, 0x0183fc00, 0x12dcbfdb, 0x702138a4, 0xf10a5c62);
    NextWord(Pad(ABC), 38, 0x12dcbfdb, 0xe2e2c38e, 0xd3b7973b, 0x0a8b3996);
    NextWord(Pad(ABC), 39, 0xe2e2c38e, 0xc8215c1a, 0x93f5997f, 0x72af830a);
  }

  lemma AbcWords4()
    ensures |Pad(ABC)| == 64
    ensures Words8(Pad(ABC), 40, 0x9f47bf94, 0xf0a64f5a, 0x3e246a79, 0x27333ba3,
                   0x0c4763f2, 0x840abf27, 0x7a290d5d, 0x065c43da)
  {
    AbcWords0();
    AbcWords2();
    AbcWords3();
    hide Schedule, Pad;
    NextWord(Pad(ABC), 40, 0xc8215c1a, 0xb73679a2, 0x3b68ba73, 0x9409e33e);
    NextWord(Pad(ABC), 41, 0xb73679a2, 0xe5bc3909, 0xaff4ffc1, 0x24641522);
    NextWord(Pad(ABC), 42, 0xe5bc3909, 0x32663c5b, 0xf10a5c62, 0x9f47bf94);
    NextWord(Pad(ABC), 43, 0x32663c5b, 0x9d209d67, 0x0a8b3996, 0xf0a64f5a);
    NextWord(Pad(ABC), 44, 0x9d209d67, 0xec8726cb, 0x72af830a, 0x3e246a79);
    NextWord(Pad(ABC), 45, 0xec8726cb, 0x702138a4, 0x9409e33e, 0x27333ba3);
    NextWord(Pad(ABC), 46, 0x702138a4, 0xd3b7973b, 0x24641522, 0x0c4763f2);
    NextWord(Pad(ABC), 47, 0xd3b7973b, 0x93f5997f, 0x9f47bf94, 0x840abf27);
  }

  lemma AbcWords5()
    ensures |Pad(ABC)| == 64
    ensures Words8(Pad(ABC), 48, 0xfb3e89cb, 0xcc7617db, 0xb9e66c34, 0xa9993667,
                   0x84badedd, 0xc21462bc, 0x1487472c, 0xb20f7a99)
  {
    AbcWords0();
    AbcWords3();
    AbcWords4();
    hide Schedule, Pad;
    NextWord(Pad(ABC), 48, 0x93f5997f, 0x3b68ba73, 0xf0a64f5a, 0x7a290d5d);
    NextWord(Pad(ABC), 49, 0x3b68ba73, 0xaff4ffc1, 0x3e246a79, 0x065c43da);
    NextWord(Pad(ABC), 50, 0xaff4ffc1, 0xf10a5c62, 0x27333ba3, 0xfb3e89cb);
    NextWord(Pad(ABC), 51, 0xf10a5c62, 0x0a8b3996, 0x0c4763f2, 0xcc7617db);
    NextWord(Pad(ABC), 52, 0x0a8b3996, 0x72af830a, 0x840abf27, 0xb9e66c34);
    NextWord(Pad(ABC), 53, 0x72af830a, 0x9409e33e, 0x7a290d5d, 0xa9993667);
    NextWord(Pad(ABC), 54, 0x9409e33e, 0x24641522, 0x065c43da, 0x84badedd);
    NextWord(Pad(ABC), 55, 0x24641522, 0x9f47bf94, 0xfb3e89cb, 0xc21462bc);
  }

  lemma AbcWords6()
    ensures |Pad(ABC)| == 64
    ensures Words8(Pad(ABC), 56, 0xef57b9cd, 0xebe6b238, 0x9fe3095e, 0x78bc8d4b,
                   0xa43fcf15, 0x668b2ff8, 0xeeaba2cc, 0x12b1edeb)
  {
    AbcWords0();
    AbcWords4();
    AbcWords5();
    hide Schedule, Pad;
    NextWord(Pad(ABC), 56, 0x9f47bf94, 0xf0a64f5a, 0xcc7617db, 0x1487472c);
    NextWord(Pad(ABC), 57, 0xf0a64f5a, 0x3e246a79, 0xb9e66c34, 0xb20f7a99);
    NextWord(Pad(ABC), 58, 0x3e246a79, 0x27333ba3, 0xa9993667, 0xef57b9cd);
    NextWord(Pad(ABC), 59, 0x27333ba3, 0x0c4763f2, 0x84badedd, 0xebe6b238);
    NextWord(Pad(ABC), 60, 0x0c4763f2, 0x840abf27, 0xc21462bc, 0x9fe3095e);
    NextWord(Pad(ABC), 61, 0x840abf27, 0x7a290d5d, 0x1487472c, 0x78bc8d4b);
    NextWord(Pad(ABC), 62, 0x7a290d5d, 0x065c43da, 0xb20f7a99, 0xa43fcf15);
    NextWord(Pad(ABC), 63, 0x065c43da, 0xfb3e89cb, 0xef57b9cd, 0x668b2ff8);
  }

  /** One round shifts the working variables and makes a new first and fifth. */
  lemma NextRound(block: Block, t: nat, k: Word, w: Word, a: Word, e: Word)
    requires t < 64 && ROUND_CONSTANTS[t] == k && Schedule(block, t) == w
    requires Round(Rounds(INITIAL, block, t), k, w).a == a && Round(Rounds(INITIAL, block, t), k, w).e == e
    ensures var s := Rounds(INITIAL, block, t);
            Rounds(INITIAL, block, t + 1) == Words(a, s.a, s.b, s.c, e, s.e, s.f, s.g)
  {
  }

  lemma AbcRounds0()
    ensures |Pad(ABC)| == 64
    ensures Rounds(INITIAL, Pad(ABC), 8)
            == Words(0x85a07b5f, 0xe5030380, 0x2b4209f5, 0x04409a6a,
                     0x0c657a79, 0x9b27a401, 0x714260ad, 0x43ada245)
  {
    AbcWords0();
    ConstantRow0();
    assert Rounds(INITIAL, Pad(ABC), 0) == INITIAL;
    hide Rounds, Schedule, Pad;
    NextRound(Pad(ABC), 0, 0x428a2f98, 0x61626380, 0x5d6aebcd, 0xfa2a4622);
    NextRound(Pad(ABC), 1, 0x71374491, 0x00000000, 0x5a6ad9ad, 0x78ce7989);
    NextRound(Pad(ABC), 2, 0xb5c0fbcf, 0x00000000, 0xc8c347a7, 0xf92939eb);
    NextRound(Pad(ABC), 3, 0xe9b5dba5, 0x00000000, 0xd550f666, 0x24e00850);
    NextRound(Pad(ABC), 4, 0x3956c25b, 0x00000000, 0x04409a6a, 0x43ada245);
    NextRound(Pad(ABC), 5, 0x59f111f1, 0x00000000, 0x2b4209f5, 0x714260ad);
    NextRound(Pad(ABC), 6, 0x923f82a4, 0x00000000, 0xe5030380, 0x9b27a401);
    NextRound(Pad(ABC), 7, 0xab1c5ed5, 0x00000000, 0x85a07b5f, 0x0c657a79);
  }

  lemma AbcRounds1()
    ensures |Pad(ABC)| == 64
    ensures Rounds(INITIAL, Pad(ABC), 16)
            == Words(0xb0fa238e, 0xc0645fde, 0xd932eb16, 0x87912990,
                     0x07590dcd, 0x0b92f20c, 0x745a48de, 0x1e578218)
  {
    AbcWords0();
    ConstantRow1();
    AbcRounds0();
    hide Rounds, Schedule, Pad;
    NextRound(Pad(ABC), 8, 0xd807aa98, 0x00000000, 0x8e04ecb9, 0x32ca2d8c);
    NextRound(Pad(ABC), 9, 0x12835b01, 0x00000000, 0x8c87346b, 0x1cc92596);
    NextRound(Pad(ABC), 10, 0x243185be, 0x00000000, 0x4798a3f4, 0x436b23e8);
    NextRound(Pad(ABC), 11, 0x550c7dc3, 0x00000000, 0xf71fc5a9, 0x816fd6e9);
    NextRound(Pad(ABC), 12, 0x72be5d74, 0x00000000, 0x87912990, 0x1e578218);
    NextRound(Pad(ABC), 13, 0x80deb1fe, 0x00000000, 0xd932eb16, 0x745a48de);
    NextRound(Pad(ABC), 14, 0x9bdc06a7, 0x00000000, 0xc0645fde, 0x0b92f20c);
    NextRound(Pad(ABC), 15, 0xc19bf174, 0x00000018, 0xb0fa238e, 0x07590dcd);
  }

  lemma AbcRounds2()
    ensures |Pad(ABC)| == 64
    ensures Rounds(INITIAL, Pad(ABC), 24)
            == Words(0xc5d53d8d, 0xa7a3623f, 0xc2606d6d, 0x9dc68b63,
                     0xaa47c347, 0x49f5114a, 0xe1257970, 0x8ada8930)
  {
    AbcWords1();
    ConstantRow2();
    AbcRounds1();
    hide Rounds, Schedule, Pad;
    NextRound(Pad(ABC), 16, 0xe49b69c1, 0x61626380, 0x21da9a9b, 0x8034229c);
    NextRound(Pad(ABC), 17, 0xefbe4786, 0x000f0000, 0xc2fbd9d1, 0x846ee454);
    NextRound(Pad(ABC), 18, 0x0fc19dc6, 0x7da86405, 0xfe777bbf, 0xcc899961);
    NextRound(Pad(ABC), 19, 0x240ca1cc, 0x600003c6, 0xe1f20c33, 0xb0638179);
    NextRound(Pad(ABC), 20, 0x2de92c6f, 0x3e9d7b78, 0x9dc68b63, 0x8ada8930);
    NextRound(Pad(ABC), 21, 0x4a7484aa, 0x0183fc00, 0xc2606d6d, 0xe1257970);
    NextRound(Pad(ABC), 22, 0x5cb0a9dc, 0x12dcbfdb, 0xa7a3623f, 0x49f5114a);
    NextRound(Pad(ABC), 23, 0x76f988da, 0xe2e2c38e, 0xc5d53d8d, 0xaa47c347);
  }

  lemma AbcRounds3()
    ensures |Pad(ABC)| == 64
    ensures Rounds(INITIAL, Pad(ABC), 32)
            == Words(0x73b33bf5, 0xea992a22, 0xa0060b30, 0x363482c9,
                     0xba591112, 0x0109ab3a, 0xade79437, 0x6112a3b7)
  {
    AbcWords2();
    ConstantRow3();
    AbcRounds2();
    hide Rounds, Schedule, Pad;
    NextRound(Pad(ABC), 24, 0x983e5152, 0xc8215c1a, 0x1c2c2838, 0x2823ef91);
    NextRound(Pad(ABC), 25, 0xa831c66d, 0xb73679a2, 0xcde8037d, 0x14383d8e);
    NextRound(Pad(ABC), 26, 0xb00327c8, 0xe5bc3909, 0xb62ec4bc, 0xc74c6516);
    NextRound(Pad(ABC), 27, 0xbf597fc7, 0x32663c5b, 0x77d37528, 0xedffbff8);
    NextRound(Pad(ABC), 28, 0xc6e00bf3, 0x9d209d67, 0x363482c9, 0x6112a3b7);
    NextRound(Pad(ABC), 29, 0xd5a79147, 0xec8726cb, 0xa0060b30, 0xade79437);
    NextRound(Pad(ABC), 30, 0x06ca6351, 0x702138a4, 0xea992a22, 0x0109ab3a);
    NextRound(Pad(ABC), 31, 0x14292967, 0xd3b7973b, 0x73b33bf5, 0xba591112);
  }

  lemma AbcRounds4()
    ensures |Pad(ABC)| == 64
    ensures Rounds(INITIAL, Pad(ABC), 40)
            == Words(0x79ea687a, 0x6dc57a8a, 0x34df1604, 0x41a65cb1,
                     0x1efbc0a0, 0xf0781bc8, 0xa507a53d, 0x0772a26b)
  {
    AbcWords3();
    ConstantRow4();
    AbcRounds3();
    hide Rounds, Schedule, Pad;
    NextRound(Pad(ABC), 32, 0x27b70a85, 0x93f5997f, 0x98e12507, 0x9cd9f5f6);
    NextRound(Pad(ABC), 33, 0x2e1b2138, 0x3b68ba73, 0xfe604df5, 0x59249dd3);
    NextRound(Pad(ABC), 34, 0x4d2c6dfc, 0xaff4ffc1, 0xa9a7738c, 0x085f3833);
    NextRound(Pad(ABC), 35, 0x53380d13, 0xf10a5c62, 0x65a0cfe4, 0xf4b002d6);
    NextRound(Pad(ABC), 36, 0x650a7354, 0x0a8b3996, 0x41a65cb1, 0x0772a26b);
    NextRound(Pad(ABC), 37, 0x766a0abb, 0x72af830a, 0x34df1604, 0xa507a53d);
    NextRound(Pad(ABC), 38, 0x81c2c92e, 0x9409e33e, 0x6dc57a8a, 0xf0781bc8);
    NextRound(Pad(ABC), 39, 0x92722c85, 0x24641522, 0x79ea687a, 0x1efbc0a0);
  }

  lemma AbcRounds5()
    ensures |Pad(ABC)| == 64
    ensures Rounds(INITIAL, Pad(ABC), 48)
            == Words(0x4172328d, 0xa14c14b0, 0x72ab4b91, 0x26628815,
                     0xfecf0bc6, 0xd57b94a9, 0xb7755da1, 0xa80f11f0)
  {
    AbcWords4();
    ConstantRow5();
    AbcRounds4();
    hide Rounds, Schedule, Pad;
    NextRound(Pad(ABC), 40, 0xa2bfe8a1, 0x9f47bf94, 0xd6670766, 0x26352d63);
    NextRound(Pad(ABC), 41, 0xa81a664b, 0xf0a64f5a, 0xdf46652f, 0x838b2711);
    NextRound(Pad(ABC), 42, 0xc24b8b70, 0x3e246a79, 0x17aa0dfe, 0xdecd4715);
    NextRound(Pad(ABC), 43, 0xc76c51a3, 0x27333ba3, 0x9d4baf93, 0xfda24c2e);
    NextRound(Pad(ABC), 44, 0xd192e819, 0x0c4763f2, 0x26628815, 0xa80f11f0);
    NextRound(Pad(ABC), 45, 0xd6990624, 0x840abf27, 0x72ab4b91, 0xb7755da1);
    NextRound(Pad(ABC), 46, 0xf40e3585, 0x7a290d5d, 0xa14c14b0, 0xd57b94a9);
    NextRound(Pad(ABC), 47, 0x106aa070, 0x065c43da, 0x4172328d, 0xfecf0bc6);
  }

  lemma AbcRounds6()
    ensures |Pad(ABC)| == 64
    ensures Rounds(INITIAL, Pad(ABC), 56)
            == Words(0x38cc9913, 0x3ec45cdb, 0xf5702fdb, 0x101fd28f,
                     0x54cb266b, 0xe50e1b4f, 0x9f4787c3, 0x529e7d00)
  {
    AbcWords5();
    ConstantRow6();
    AbcRounds5();
    hide Rounds, Schedule, Pad;
    NextRound(Pad(ABC), 48, 0x19a4c116, 0xfb3e89cb, 0x05757ceb, 0xbd714038);
    NextRound(Pad(ABC), 49, 0x1e376c08, 0xcc7617db, 0xf11bfaa8, 0x6e5c390c);
    NextRound(Pad(ABC), 50, 0x2748774c, 0xb9e66c34, 0x7a0508a1, 0x52f1ccf7);
    NextRound(Pad(ABC), 51, 0x34b0bcb5, 0xa9993667, 0x886e7a22, 0x49231c1e);
    NextRound(Pad(ABC), 52, 0x391c0cb3, 0x84badedd, 0x101fd28f, 0x529e7d00);
    NextRound(Pad(ABC), 53, 0x4ed8aa4a, 0xc21462bc, 0xf5702fdb, 0x9f4787c3);
    NextRound(Pad(ABC), 54, 0x5b9cca4f, 0x1487472c, 0x3ec45cdb, 0xe50e1b4f);
    NextRound(Pad(ABC), 55, 0x682e6ff3, 0xb20f7a99, 0x38cc9913, 0x54cb266b);
  }

  lemma AbcRounds7()
    ensures |Pad(ABC)| == 64
    ensures Rounds(INITIAL, Pad(ABC), 64)
            == Words(0x506e3058, 0xd39a2165, 0x04d24d6c, 0xb85e2ce9,
                     0x5ef50f24, 0xfb121210, 0x948d25b6, 0x961f4894)
  {
    AbcWords6();
    ConstantRow7();
    AbcRounds6();
    hide Rounds, Schedule, Pad;
    NextRound(Pad(ABC), 56, 0x748f82ee, 0xef57b9cd, 0xfcd1887b, 0x9b5e906c);
    NextRound(Pad(ABC), 57, 0x78a5636f, 0xebe6b238, 0xc062d46f, 0x7e44008e);
    NextRound(Pad(ABC), 58, 0x84c87814, 0x9fe3095e, 0xffb70472, 0x6d83bfc6);
    NextRound(Pad(ABC), 59, 0x8cc70208, 0x78bc8d4b, 0xb6ae8fff, 0xb21bad3d);
    NextRound(Pad(ABC), 60, 0x90befffa, 0xa43fcf15, 0xb85e2ce9, 0x961f4894);
    NextRound(Pad(ABC), 61, 0xa4506ceb, 0x668b2ff8, 0x04d24d6c, 0x948d25b6);
    NextRound(Pad(ABC), 62, 0xbef9a3f7, 0xeeaba2cc, 0xd39a2165, 0xfb121210);
    NextRound(Pad(ABC), 63, 0xc67178f2, 0x12b1edeb, 0x506e3058, 0x5ef50f24);
  }

  lemma AbcHashed()
    ensures |Pad(ABC)| == 64
    ensures HashBlocks(INITIAL, Pad(ABC)) == Words(0xba7816bf, 0x8f01cfea, 0x414140de, 0x5dae2223,
                                                   0xb00361a3, 0x96177a9c, 0xb410ff61, 0xf20015ad)
  {
    AbcRounds7();
    hide Rounds, Pad;
    assert Pad(ABC)[..0] == [] && Pad(ABC)[0..] == Pad(ABC);
    HashNothing(INITIAL);
    HashLastBlock(INITIAL, Pad(ABC));
  }

  lemma BytesOfState(s: Words)
    ensures StateBytes(s) == WordBytes(s.a) + WordBytes(s.b) + WordBytes(s.c) + WordBytes(s.d)
                             + WordBytes(s.e) + WordBytes(s.f) + WordBytes(s.g) + WordBytes(s.h)
  {
    hide WordBytes, Serialise;
    var words := [s.a, s.b, s.c, s.d, s.e, s.f, s.g, s.h];
    SerialiseNext(words, 0);
    SerialiseNext(words, 1);
    SerialiseNext(words, 2);
    SerialiseNext(words, 3);
    SerialiseNext(words, 4);
    SerialiseNext(words, 5);
    SerialiseNext(words, 6);
    SerialiseNext(words, 7);
    assert words[..8] == words;
    assert [] + WordBytes(s.a) == WordBytes(s.a);
  }

  lemma SerialiseNext(words: seq<Word>, k: nat)
    requires k < |words|
    ensures Serialise(words[..0]) == []
    ensures Serialise(words[..k + 1]) == Serialise(words[..k]) + WordBytes(words[k])
  {
    assert words[..k + 1][..k] == words[..k];
  }

  /** The digest of "abc" is the one the standard's example gives. */
  lemma AbcDigest()
    ensures Digest(ABC) == [0xba, 0x78, 0x16, 0xbf, 0x8f, 0x01, 0xcf, 0xea,
                            0x41, 0x41, 0x40, 0xde, 0x5d, 0xae, 0x22, 0x23,
                            0xb0, 0x03, 0x61, 0xa3, 0x96, 0x17, 0x7a, 0x9c,
                            0xb4, 0x10, 0xff, 0x61, 0xf2, 0x00, 0x15, 0xad]
  {
    AbcHashed();
    hide HashBlocks, Pad, StateBytes;
    BytesOfState(HashBlocks(INITIAL, Pad(ABC)));
    assert WordBytes(0xba7816bf) == [0xba, 0x78, 0x16, 0xbf];
    assert WordBytes(0x8f01cfea) == [0x8f, 0x01, 0xcf, 0xea];
    assert WordBytes(0x414140de) == [0x41, 0x41, 0x40, 0xde];
    assert WordBytes(0x5dae2223) == [0x5d, 0xae, 0x22, 0x23];
    assert WordBytes(0xb00361a3) == [0xb0, 0x03, 0x61, 0xa3];
    assert WordBytes(0x96177a9c) == [0x96, 0x17, 0x7a, 0x9c];
    assert WordBytes(0xb410ff61) == [0xb4, 0x10, 0xff, 0x61];
    assert WordBytes(0xf20015ad) == [0xf2, 0x00, 0x15, 0xad];
  }
}
