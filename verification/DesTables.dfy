/**
 * The permutations and the selection of FIPS 46-3 as lists of bits, and the shifts and masks that stand
 * for them in the code. Bits are numbered as there: 1 is the highest bit of the first byte.
 */
module DesTables {
  import opened Des

  datatype Row = Row(a: nat, b: nat, c: nat, d: nat, e: nat, f: nat, g: nat, h: nat)

  datatype Six = Six(a: nat, b: nat, c: nat, d: nat, e: nat, f: nat)

  // ---- bits

  /** Bit `k` of 32. */
  function Mask(k: nat): word {
    match k
    case 1 => 0x80000000
    case 2 => 0x40000000
    case 3 => 0x20000000
    case 4 => 0x10000000
    case 5 => 0x08000000
    case 6 => 0x04000000
    case 7 => 0x02000000
    case 8 => 0x01000000
    case 9 => 0x00800000
    case 10 => 0x00400000
    case 11 => 0x00200000
    case 12 => 0x00100000
    case 13 => 0x00080000
    case 14 => 0x00040000
    case 15 => 0x00020000
    case 16 => 0x00010000
    case 17 => 0x00008000
    case 18 => 0x00004000
    case 19 => 0x00002000
    case 20 => 0x00001000
    case 21 => 0x00000800
    case 22 => 0x00000400
    case 23 => 0x00000200
    case 24 => 0x00000100
    case 25 => 0x00000080
    case 26 => 0x00000040
    case 27 => 0x00000020
    case 28 => 0x00000010
    case 29 => 0x00000008
    case 30 => 0x00000004
    case 31 => 0x00000002
    case _ => 0x00000001
  }

  function Bit(x: word, k: nat): word { if x & Mask(k) != 0 then 1 else 0 }

  function BitOf(p: Pair, k: nat): word { if k <= 32 then Bit(p.x, k) else Bit(p.y, k - 32) }

  /** The byte made of the listed bits. */
  function Gather(p: Pair, r: Row): word {
    (BitOf(p, r.a) << 7) | (BitOf(p, r.b) << 6) | (BitOf(p, r.c) << 5) | (BitOf(p, r.d) << 4)
    | (BitOf(p, r.e) << 3) | (BitOf(p, r.f) << 2) | (BitOf(p, r.g) << 1) | BitOf(p, r.h)
  }

  function Four(a: word, b: word, c: word, d: word): word { (a << 24) | (b << 16) | (c << 8) | d }

  /** The initial permutation, IP. */
  function Initial(p: Pair): Pair {
    Pair(Four(Gather(p, Row(58, 50, 42, 34, 26, 18, 10, 2)),
              Gather(p, Row(60, 52, 44, 36, 28, 20, 12, 4)),
              Gather(p, Row(62, 54, 46, 38, 30, 22, 14, 6)),
              Gather(p, Row(64, 56, 48, 40, 32, 24, 16, 8))),
         Four(Gather(p, Row(57, 49, 41, 33, 25, 17, 9, 1)),
              Gather(p, Row(59, 51, 43, 35, 27, 19, 11, 3)),
              Gather(p, Row(61, 53, 45, 37, 29, 21, 13, 5)),
              Gather(p, Row(63, 55, 47, 39, 31, 23, 15, 7))))
  }

  /** The inverse of IP. */
  function Final(p: Pair): Pair {
    Pair(Four(Gather(p, Row(40, 8, 48, 16, 56, 24, 64, 32)),
              Gather(p, Row(39, 7, 47, 15, 55, 23, 63, 31)),
              Gather(p, Row(38, 6, 46, 14, 54, 22, 62, 30)),
              Gather(p, Row(37, 5, 45, 13, 53, 21, 61, 29))),
         Four(Gather(p, Row(36, 4, 44, 12, 52, 20, 60, 28)),
              Gather(p, Row(35, 3, 43, 11, 51, 19, 59, 27)),
              Gather(p, Row(34, 2, 42, 10, 50, 18, 58, 26)),
              Gather(p, Row(33, 1, 41, 9, 49, 17, 57, 25))))
  }

  function Group(r: word, s: Six): word {
    (Bit(r, s.a) << 5) | (Bit(r, s.b) << 4) | (Bit(r, s.c) << 3) | (Bit(r, s.d) << 2) | (Bit(r, s.e) << 1) | Bit(r, s.f)
  }

  /** The six bits that each of the eight boxes gets. */
  datatype Inputs = Inputs(i1: word, i2: word, i3: word, i4: word, i5: word, i6: word, i7: word, i8: word)

  function SumOf(sb: Boxes, s: Inputs): word {
    sb(1, s.i1) ^ sb(2, s.i2) ^ sb(3, s.i3) ^ sb(4, s.i4) ^ sb(5, s.i5) ^ sb(6, s.i6) ^ sb(7, s.i7) ^ sb(8, s.i8)
  }

  // The six low bits in each byte of a word.

  function Part0(k: word): word { (k >> 24) & 0x3F }

  function Part1(k: word): word { (k >> 16) & 0x3F }

  function Part2(k: word): word { (k >> 8) & 0x3F }

  function Part3(k: word): word { k & 0x3F }

  // ---- the permutations

  lemma IpRow0(p: Pair)
    ensures (Rotr(Ip(p).x) >> 24) & 0xFF == Gather(p, Row(58, 50, 42, 34, 26, 18, 10, 2))
  {}

  lemma IpRow1(p: Pair)
    ensures (Rotr(Ip(p).x) >> 16) & 0xFF == Gather(p, Row(60, 52, 44, 36, 28, 20, 12, 4))
  {}

  lemma IpRow2(p: Pair)
    ensures (Rotr(Ip(p).x) >> 8) & 0xFF == Gather(p, Row(62, 54, 46, 38, 30, 22, 14, 6))
  {}

  lemma IpRow3(p: Pair)
    ensures (Rotr(Ip(p).x) >> 0) & 0xFF == Gather(p, Row(64, 56, 48, 40, 32, 24, 16, 8))
  {}

  lemma IpRow4(p: Pair)
    ensures (Rotr(Ip(p).y) >> 24) & 0xFF == Gather(p, Row(57, 49, 41, 33, 25, 17, 9, 1))
  {}

  lemma IpRow5(p: Pair)
    ensures (Rotr(Ip(p).y) >> 16) & 0xFF == Gather(p, Row(59, 51, 43, 35, 27, 19, 11, 3))
  {}

  lemma IpRow6(p: Pair)
    ensures (Rotr(Ip(p).y) >> 8) & 0xFF == Gather(p, Row(61, 53, 45, 37, 29, 21, 13, 5))
  {}

  lemma IpRow7(p: Pair)
    ensures (Rotr(Ip(p).y) >> 0) & 0xFF == Gather(p, Row(63, 55, 47, 39, 31, 23, 15, 7))
  {}

  lemma FpRow0(p: Pair)
    ensures (Fp(Pair(Rotl(p.x), Rotl(p.y))).x >> 24) & 0xFF == Gather(p, Row(40, 8, 48, 16, 56, 24, 64, 32))
  {}

  lemma FpRow1(p: Pair)
    ensures (Fp(Pair(Rotl(p.x), Rotl(p.y))).x >> 16) & 0xFF == Gather(p, Row(39, 7, 47, 15, 55, 23, 63, 31))
  {}

  lemma FpRow2(p: Pair)
    ensures (Fp(Pair(Rotl(p.x), Rotl(p.y))).x >> 8) & 0xFF == Gather(p, Row(38, 6, 46, 14, 54, 22, 62, 30))
  {}

  lemma FpRow3(p: Pair)
    ensures (Fp(Pair(Rotl(p.x), Rotl(p.y))).x >> 0) & 0xFF == Gather(p, Row(37, 5, 45, 13, 53, 21, 61, 29))
  {}

  lemma FpRow4(p: Pair)
    ensures (Fp(Pair(Rotl(p.x), Rotl(p.y))).y >> 24) & 0xFF == Gather(p, Row(36, 4, 44, 12, 52, 20, 60, 28))
  {}

  lemma FpRow5(p: Pair)
    ensures (Fp(Pair(Rotl(p.x), Rotl(p.y))).y >> 16) & 0xFF == Gather(p, Row(35, 3, 43, 11, 51, 19, 59, 27))
  {}

  lemma FpRow6(p: Pair)
    ensures (Fp(Pair(Rotl(p.x), Rotl(p.y))).y >> 8) & 0xFF == Gather(p, Row(34, 2, 42, 10, 50, 18, 58, 26))
  {}

  lemma FpRow7(p: Pair)
    ensures (Fp(Pair(Rotl(p.x), Rotl(p.y))).y >> 0) & 0xFF == Gather(p, Row(33, 1, 41, 9, 49, 17, 57, 25))
  {}

  lemma FourOf(x: word, a: word, b: word, c: word, d: word)
    requires (x >> 24) & 0xFF == a && (x >> 16) & 0xFF == b && (x >> 8) & 0xFF == c && (x >> 0) & 0xFF == d
    ensures x == Four(a, b, c, d)
  {}

  lemma Group0(r: word, k: word)
    ensures Part0(k ^ Back4(Rotl(r))) == Group(r, Six(32, 1, 2, 3, 4, 5)) ^ Part0(k)
  {}

  lemma Group1(r: word, k: word)
    ensures Part0(k ^ Rotl(r)) == Group(r, Six(4, 5, 6, 7, 8, 9)) ^ Part0(k)
  {}

  lemma Group2(r: word, k: word)
    ensures Part1(k ^ Back4(Rotl(r))) == Group(r, Six(8, 9, 10, 11, 12, 13)) ^ Part1(k)
  {}

  lemma Group3(r: word, k: word)
    ensures Part1(k ^ Rotl(r)) == Group(r, Six(12, 13, 14, 15, 16, 17)) ^ Part1(k)
  {}

  lemma Group4(r: word, k: word)
    ensures Part2(k ^ Back4(Rotl(r))) == Group(r, Six(16, 17, 18, 19, 20, 21)) ^ Part2(k)
  {}

  lemma Group5(r: word, k: word)
    ensures Part2(k ^ Rotl(r)) == Group(r, Six(20, 21, 22, 23, 24, 25)) ^ Part2(k)
  {}

  lemma Group6(r: word, k: word)
    ensures Part3(k ^ Back4(Rotl(r))) == Group(r, Six(24, 25, 26, 27, 28, 29)) ^ Part3(k)
  {}

  lemma Group7(r: word, k: word)
    ensures Part3(k ^ Rotl(r)) == Group(r, Six(28, 29, 30, 31, 32, 1)) ^ Part3(k)
  {}

  /** Rotated by four the other way. */
  function Back4(x: word): word { (x << 28) | (x >> 4) }

  lemma FSum(sb: Boxes, x: word, k0: word, k1: word, s: Inputs)
    requires var u := k1 ^ ((x << 28) | (x >> 4));
      (u >> 24) & 0x3F == s.i1 && (u >> 16) & 0x3F == s.i3 && (u >> 8) & 0x3F == s.i5 && u & 0x3F == s.i7
    requires var t := k0 ^ x;
      (t >> 24) & 0x3F == s.i2 && (t >> 16) & 0x3F == s.i4 && (t >> 8) & 0x3F == s.i6 && t & 0x3F == s.i8
    ensures F(sb, x, k0, k1) == SumOf(sb, s)
  {}

  function Seen(t: word, u: word): Inputs {
    Inputs(Part0(u), Part0(t), Part1(u), Part1(t), Part2(u), Part2(t), Part3(u), Part3(t))
  }

  lemma FSees(sb: Boxes, x: word, k0: word, k1: word)
    ensures F(sb, x, k0, k1) == SumOf(sb, Seen(k0 ^ x, k1 ^ Back4(x)))
  {
    FSum(sb, x, k0, k1, Seen(k0 ^ x, k1 ^ Back4(x)));
  }

  lemma RotlXor(a: word, b: word)
    ensures Rotl(a) ^ b == Rotl(a ^ Rotr(b))
  {}

  lemma GetWordSum(b0: byte, b1: byte, b2: byte, b3: byte)
    ensures ((b0 as word) << 24) | ((b1 as word) << 16) | ((b2 as word) << 8) | (b3 as word)
         == (b0 as word) * 0x100_0000 + (b1 as word) * 0x1_0000 + (b2 as word) * 0x100 + (b3 as word)
  {}
}
