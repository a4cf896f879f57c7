/**
 * The cipher of FIPS 46-3, and the proof that encryption of a block is this cipher.
 */
module DesStandard {
  import opened Des
  import opened DesTables

  // ---- the standard

  /** The cipher function: box i sees the bits that E selects for it and the i-th part of the subkey,
      whose parts lie in two words. The boxes include the permutation P and a rotation by one. */
  function CipherF(sb: Boxes, r: word, k0: word, k1: word): word { SumOf(sb, Selected(r, k0, k1)) }

  function Selected(r: word, k0: word, k1: word): Inputs {
    Inputs(Group(r, Six(32, 1, 2, 3, 4, 5)) ^ Part0(k1),
           Group(r, Six(4, 5, 6, 7, 8, 9)) ^ Part0(k0),
           Group(r, Six(8, 9, 10, 11, 12, 13)) ^ Part1(k1),
           Group(r, Six(12, 13, 14, 15, 16, 17)) ^ Part1(k0),
           Group(r, Six(16, 17, 18, 19, 20, 21)) ^ Part2(k1),
           Group(r, Six(20, 21, 22, 23, 24, 25)) ^ Part2(k0),
           Group(r, Six(24, 25, 26, 27, 28, 29)) ^ Part3(k1),
           Group(r, Six(28, 29, 30, 31, 32, 1)) ^ Part3(k0))
  }

  /** The halves L and R after `n` rounds. */
  function Halves(sb: Boxes, sk: seq<word>, n: nat, p: Pair): Pair
    requires 2 * n <= |sk|
  {
    if n == 0 then p else
    var q := Halves(sb, sk, n - 1, p);
    Pair(q.y, q.x ^ Rotr(CipherF(sb, q.y, sk[2 * n - 2], sk[2 * n - 1])))
  }

  /** The cipher text of a block of two words. */
  function Enciphered(sb: Boxes, sk: seq<word>, p: Pair): Pair {
    var q := Halves(sb, sk, |sk| / 2, Initial(p));
    Final(Pair(q.y, q.x))
  }

  /** A word has its highest byte first. */
  function WordOf(b: seq<byte>): word
    requires |b| == 4
  {
    (b[0] as word) * 0x100_0000 + (b[1] as word) * 0x1_0000 + (b[2] as word) * 0x100 + (b[3] as word)
  }

  /** `DES_IP` is the table IP, with both halves rotated by one. */
  lemma IpIs(p: Pair)
    ensures Ip(p) == Pair(Rotl(Initial(p).x), Rotl(Initial(p).y))
  {
    hide Ip, Rotl, Rotr, Gather, Four;
    IpRow0(p); IpRow1(p); IpRow2(p); IpRow3(p);
    FourOf(Rotr(Ip(p).x), Gather(p, Row(58, 50, 42, 34, 26, 18, 10, 2)), Gather(p, Row(60, 52, 44, 36, 28, 20, 12, 4)), Gather(p, Row(62, 54, 46, 38, 30, 22, 14, 6)), Gather(p, Row(64, 56, 48, 40, 32, 24, 16, 8)));
    IpRow4(p); IpRow5(p); IpRow6(p); IpRow7(p);
    FourOf(Rotr(Ip(p).y), Gather(p, Row(57, 49, 41, 33, 25, 17, 9, 1)), Gather(p, Row(59, 51, 43, 35, 27, 19, 11, 3)), Gather(p, Row(61, 53, 45, 37, 29, 21, 13, 5)), Gather(p, Row(63, 55, 47, 39, 31, 23, 15, 7)));
    RotateBack(Ip(p).x);
    RotateBack(Ip(p).y);
  }

  /** `DES_FP` rotates the halves back and is the inverse table. */
  lemma FpIs(p: Pair)
    ensures Fp(Pair(Rotl(p.x), Rotl(p.y))) == Final(p)
  {
    hide Fp, Rotl, Rotr, Gather, Four;
    var q := Fp(Pair(Rotl(p.x), Rotl(p.y)));
    FpRow0(p); FpRow1(p); FpRow2(p); FpRow3(p);
    FourOf(q.x, Gather(p, Row(40, 8, 48, 16, 56, 24, 64, 32)), Gather(p, Row(39, 7, 47, 15, 55, 23, 63, 31)), Gather(p, Row(38, 6, 46, 14, 54, 22, 62, 30)), Gather(p, Row(37, 5, 45, 13, 53, 21, 61, 29)));
    FpRow4(p); FpRow5(p); FpRow6(p); FpRow7(p);
    FourOf(q.y, Gather(p, Row(36, 4, 44, 12, 52, 20, 60, 28)), Gather(p, Row(35, 3, 43, 11, 51, 19, 59, 27)), Gather(p, Row(34, 2, 42, 10, 50, 18, 58, 26)), Gather(p, Row(33, 1, 41, 9, 49, 17, 57, 25)));
  }

  // ---- the rounds

  /** `DES_ROUND` adds the cipher function. */
  lemma FIs(sb: Boxes, r: word, k0: word, k1: word)
    ensures F(sb, Rotl(r), k0, k1) == CipherF(sb, r, k0, k1)
  {
    hide F, SumOf, Seen, Selected, Rotl, Back4;
    FSees(sb, Rotl(r), k0, k1);
    SeenIs(r, k0, k1);
  }

  lemma SeenIs(r: word, k0: word, k1: word)
    ensures Seen(k0 ^ Rotl(r), k1 ^ Back4(Rotl(r))) == Selected(r, k0, k1)
  {
    hide Group, Rotl, Part0, Part1, Part2, Part3, Back4;
    Group0(r, k1); Group2(r, k1); Group4(r, k1); Group6(r, k1);
    Group1(r, k0); Group3(r, k0); Group5(r, k0); Group7(r, k0);
  }

  function Rotated(p: Pair): Pair { Pair(Rotl(p.x), Rotl(p.y)) }

  lemma RoundIs(sb: Boxes, k0: word, k1: word, p: Pair)
    ensures Round(sb, k0, k1, Rotated(p)) == Rotated(Pair(p.y, p.x ^ Rotr(CipherF(sb, p.y, k0, k1))))
  {
    hide F, CipherF, Rotl, Rotr, Mix;
    FIs(sb, p.y, k0, k1);
    MixIs(sb, k0, k1, Rotl(p.y), p.x, CipherF(sb, p.y, k0, k1));
  }

  lemma MixIs(sb: Boxes, k0: word, k1: word, x: word, y: word, f: word)
    requires F(sb, x, k0, k1) == f
    ensures Mix(sb, k0, k1, x, Rotl(y)) == Rotl(y ^ Rotr(f))
  {
    hide F, Rotl, Rotr;
    RotlXor(y, f);
  }

  lemma {:induction false} RoundsAre(sb: Boxes, sk: seq<word>, n: nat, p: Pair)
    requires 2 * n <= |sk|
    ensures Rounds(sb, sk[..2 * n], Rotated(p)) == Rotated(Halves(sb, sk, n, p))
    decreases n
  {
    hide Round, Rotated, Rotr, CipherF;
    if n > 0 {
      RoundsAre(sb, sk, n - 1, p);
      assert sk[..2 * n] == sk[..2 * (n - 1)] + [sk[2 * n - 2], sk[2 * n - 1]];
      RoundsAppend(sb, sk[..2 * (n - 1)], [sk[2 * n - 2], sk[2 * n - 1]], Rotated(p));
      var q := Halves(sb, sk, n - 1, p);
      RoundsOne(sb, sk[2 * n - 2], sk[2 * n - 1], Rotated(q));
      RoundIs(sb, sk[2 * n - 2], sk[2 * n - 1], q);
    }
  }

  lemma CryptIs(sb: Boxes, sk: seq<word>, p: Pair)
    requires |sk| % 2 == 0
    ensures Crypt(sb, sk, p) == Enciphered(sb, sk, p)
  {
    hide Ip, Fp, Rounds, Rotl, Halves, Initial, Final;
    IpIs(p);
    RoundsAre(sb, sk, |sk| / 2, Initial(p));
    assert sk[..2 * (|sk| / 2)] == sk;
    var q := Halves(sb, sk, |sk| / 2, Initial(p));
    FpIs(Pair(q.y, q.x));
  }

  lemma GetWordIs(b: seq<byte>, i: nat)
    requires i + 4 <= |b|
    ensures GetWord(b, i) == WordOf(b[i..i + 4])
  {
    GetWordSum(b[i], b[i + 1], b[i + 2], b[i + 3]);
  }

  /** `des_crypt` is the cipher: on the block as two words, highest byte first. */
  lemma BlockIs(sb: Boxes, sk: seq<word>, b: seq<byte>)
    requires |b| == 8 && |sk| % 2 == 0
    ensures var r := CryptBlock(sb, sk, b); var c := Enciphered(sb, sk, Pair(WordOf(b[..4]), WordOf(b[4..])));
      WordOf(r[..4]) == c.x && WordOf(r[4..]) == c.y
  {
    hide Crypt, GetWord, PutWord, WordOf, Enciphered;
    GetWordIs(b, 0);
    GetWordIs(b, 4);
    assert b[0..4] == b[..4] && b[4..8] == b[4..];
    var p := Crypt(sb, sk, Pair(GetWord(b, 0), GetWord(b, 4)));
    CryptIs(sb, sk, Pair(GetWord(b, 0), GetWord(b, 4)));
    var r := PutWord(p.x) + PutWord(p.y);
    PairOfBytes(p);
    GetWordIs(r, 0);
    GetWordIs(r, 4);
    assert r[0..4] == r[..4] && r[4..8] == r[4..];
  }

  lemma {:induction false} BlockAt(sb: Boxes, sk: seq<word>, text: seq<byte>, i: nat)
    requires |text| % 8 == 0 && 8 * i + 8 <= |text|
    ensures Blocks(sb, sk, text)[8 * i..8 * i + 8] == CryptBlock(sb, sk, text[8 * i..8 * i + 8])
    decreases i
  {
    hide CryptBlock;
    var a, b := CryptBlock(sb, sk, text[..8]), Blocks(sb, sk, text[8..]);
    assert Blocks(sb, sk, text) == a + b;
    if i > 0 {
      BlockAt(sb, sk, text[8..], i - 1);
      assert text[8..][8 * (i - 1)..8 * (i - 1) + 8] == text[8 * i..8 * i + 8];
      assert (a + b)[8 * i..8 * i + 8] == b[8 * (i - 1)..8 * (i - 1) + 8];
    } else {
      assert text[..8] == text[0..8] && (a + b)[0..8] == a;
    }
  }

  /** The block `i` of a text, as two words. */
  function PairAt(t: seq<byte>, i: nat): Pair
    requires 8 * i + 8 <= |t|
  {
    Pair(WordOf(t[8 * i..8 * i + 4]), WordOf(t[8 * i + 4..8 * i + 8]))
  }

  /** `desencode` enciphers the padded text block by block, each by itself. */
  lemma EncodedIs(sb: Boxes, sk: seq<word>, mode: Mode, text: seq<byte>, i: nat)
    requires |sk| % 2 == 0 && 8 * i + 8 <= |Padded(mode, text)|
    ensures |Encoded(sb, sk, mode, text)| == |Padded(mode, text)|
    ensures PairAt(Encoded(sb, sk, mode, text), i) == Enciphered(sb, sk, PairAt(Padded(mode, text), i))
  {
    hide CryptBlock, Blocks, Padding, WordOf, Enciphered;
    var t, r := Padded(mode, text), Encoded(sb, sk, mode, text);
    BlockAt(sb, sk, t, i);
    var b, c := t[8 * i..8 * i + 8], r[8 * i..8 * i + 8];
    BlockIs(sb, sk, b);
    assert b[..4] == t[8 * i..8 * i + 4] && b[4..] == t[8 * i + 4..8 * i + 8];
    assert c[..4] == r[8 * i..8 * i + 4] && c[4..] == r[8 * i + 4..8 * i + 8];
  }
}
