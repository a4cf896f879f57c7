/**
 * DES block encryption as a Feistel network over 32-bit words, for any round function and any
 * subkeys, and the padded encryption of texts in both padding modes.
 */
module Des {
  type byte = bv8
  type word = bv32

  /** The S-boxes 1 to 8, indexed by six bits; any tables will do. */
  type Boxes = (nat, word) -> word

  datatype Pair = Pair(x: word, y: word)

  // ---- the permutations

  // Steps of `DES_IP` and `DES_FP`: exchange some bits of `b` with those of `a` that many places higher.

  function Swap4(a: word, b: word): Pair {
    var t := ((a >> 4) ^ b) & 0x0F0F0F0F;
    Pair(a ^ (t << 4), b ^ t)
  }

  function Swap16(a: word, b: word): Pair {
    var t := ((a >> 16) ^ b) & 0x0000FFFF;
    Pair(a ^ (t << 16), b ^ t)
  }

  function Swap2(a: word, b: word): Pair {
    var t := ((a >> 2) ^ b) & 0x33333333;
    Pair(a ^ (t << 2), b ^ t)
  }

  function Swap8(a: word, b: word): Pair {
    var t := ((a >> 8) ^ b) & 0x00FF00FF;
    Pair(a ^ (t << 8), b ^ t)
  }

  function Swap0(a: word, b: word): Pair {
    var t := (a ^ b) & 0xAAAAAAAA;
    Pair(a ^ t, b ^ t)
  }

  function Rotl(x: word): word { (x << 1) | (x >> 31) }

  function Rotr(x: word): word { (x << 31) | (x >> 1) }

  /** `DES_IP` */
  function Ip(p: Pair): Pair {
    var p1 := Swap4(p.x, p.y);
    var p2 := Swap16(p1.x, p1.y);
    var q3 := Swap2(p2.y, p2.x);
    var q4 := Swap8(q3.x, q3.y);
    var y := Rotl(q4.x);
    var p5 := Swap0(q4.y, y);
    Pair(Rotl(p5.x), p5.y)
  }

  /** `DES_FP` */
  function Fp(p: Pair): Pair {
    var p1 := Swap0(Rotr(p.x), p.y);
    var q2 := Swap8(Rotr(p1.y), p1.x);
    var q3 := Swap2(q2.x, q2.y);
    var p4 := Swap16(q3.y, q3.x);
    Swap4(p4.x, p4.y)
  }

  lemma Swap4Twice(a: word, b: word)
    ensures var p := Swap4(a, b); Swap4(p.x, p.y) == Pair(a, b)
  {
  }

  lemma Swap16Twice(a: word, b: word)
    ensures var p := Swap16(a, b); Swap16(p.x, p.y) == Pair(a, b)
  {
  }

  lemma Swap2Twice(a: word, b: word)
    ensures var p := Swap2(a, b); Swap2(p.x, p.y) == Pair(a, b)
  {
  }

  lemma Swap8Twice(a: word, b: word)
    ensures var p := Swap8(a, b); Swap8(p.x, p.y) == Pair(a, b)
  {
  }

  lemma Swap0Twice(a: word, b: word)
    ensures var p := Swap0(a, b); Swap0(p.x, p.y) == Pair(a, b)
  {
  }

  lemma RotateBack(x: word)
    ensures Rotr(Rotl(x)) == x && Rotl(Rotr(x)) == x
  {
  }

  /** The final permutation undoes the initial one, and the other way round. */
  lemma FpUndoesIp(p: Pair)
    ensures Fp(Ip(p)) == p && Ip(Fp(p)) == p
  {
    hide Swap0, Swap2, Swap4, Swap8, Swap16, Rotl, Rotr;
    ForwardBack(p);
    BackForward(p);
  }

  lemma ForwardBack(p: Pair)
    ensures Fp(Ip(p)) == p
  {
    hide Swap0, Swap2, Swap4, Swap8, Swap16, Rotl, Rotr;
    var p1 := Swap4(p.x, p.y);
    Swap4Twice(p.x, p.y);
    var p2 := Swap16(p1.x, p1.y);
    Swap16Twice(p1.x, p1.y);
    var q3 := Swap2(p2.y, p2.x);
    Swap2Twice(p2.y, p2.x);
    var q4 := Swap8(q3.x, q3.y);
    Swap8Twice(q3.x, q3.y);
    RotateBack(q4.x);
    var y := Rotl(q4.x);
    var p5 := Swap0(q4.y, y);
    Swap0Twice(q4.y, y);
    RotateBack(p5.x);
  }

  lemma BackForward(p: Pair)
    ensures Ip(Fp(p)) == p
  {
    hide Swap0, Swap2, Swap4, Swap8, Swap16, Rotl, Rotr;
    RotateBack(p.x);
    var p1 := Swap0(Rotr(p.x), p.y);
    Swap0Twice(Rotr(p.x), p.y);
    RotateBack(p1.y);
    var q2 := Swap8(Rotr(p1.y), p1.x);
    Swap8Twice(Rotr(p1.y), p1.x);
    var q3 := Swap2(q2.x, q2.y);
    Swap2Twice(q2.x, q2.y);
    var p4 := Swap16(q3.y, q3.x);
    Swap16Twice(q3.y, q3.x);
    Swap4Twice(p4.x, p4.y);
  }

  // ---- the rounds

  /** What `DES_ROUND` adds to one half: two groups of four boxes. */
  function F(sb: Boxes, x: word, k0: word, k1: word): word {
    var t := k0 ^ x;
    var u := k1 ^ ((x << 28) | (x >> 4));
    (sb(8, t & 0x3F) ^ sb(6, (t >> 8) & 0x3F) ^ sb(4, (t >> 16) & 0x3F) ^ sb(2, (t >> 24) & 0x3F))
    ^ (sb(7, u & 0x3F) ^ sb(5, (u >> 8) & 0x3F) ^ sb(3, (u >> 16) & 0x3F) ^ sb(1, (u >> 24) & 0x3F))
  }

  function Turn(p: Pair): Pair { Pair(p.y, p.x) }

  /** `DES_ROUND` on the halves `x` and `y`: the new `y`. */
  function Mix(sb: Boxes, k0: word, k1: word, x: word, y: word): word { y ^ F(sb, x, k0, k1) }

  /** One round, after which the halves change places. */
  function Round(sb: Boxes, k0: word, k1: word, p: Pair): Pair { Pair(p.y, Mix(sb, k0, k1, p.y, p.x)) }

  function Rounds(sb: Boxes, sk: seq<word>, p: Pair): Pair
    decreases |sk|
  {
    if |sk| < 2 then p else Rounds(sb, sk[2..], Round(sb, sk[0], sk[1], p))
  }

  /** Subkeys for decryption: the pairs in reverse order. */
  function Reversed(sk: seq<word>): (r: seq<word>)
    requires |sk| % 2 == 0
    ensures |r| == |sk|
    decreases |sk|
  {
    if sk == [] then [] else Reversed(sk[2..]) + sk[..2]
  }

  lemma {:induction false} RoundsAppend(sb: Boxes, a: seq<word>, b: seq<word>, p: Pair)
    requires |a| % 2 == 0
    ensures Rounds(sb, a + b, p) == Rounds(sb, b, Rounds(sb, a, p))
    decreases |a|
  {
    hide Round;
    if a == [] {
      assert a + b == b;
    } else {
      assert (a + b)[2..] == a[2..] + b;
      RoundsAppend(sb, a[2..], b, Round(sb, a[0], a[1], p));
    }
  }

  lemma RoundBack(sb: Boxes, k0: word, k1: word, p: Pair)
    ensures Round(sb, k0, k1, Turn(Round(sb, k0, k1, p))) == Turn(p)
  {
    hide F;
    var f := F(sb, p.y, k0, k1);
    assert (p.x ^ f) ^ f == p.x;
  }

  lemma RoundsOne(sb: Boxes, k0: word, k1: word, p: Pair)
    ensures Rounds(sb, [k0, k1], p) == Round(sb, k0, k1, p)
  {
    hide Round;
    assert [k0, k1][2..] == [];
  }

  /** The rounds with reversed subkeys undo the rounds, whatever the boxes hold. */
  lemma {:induction false} RoundsBack(sb: Boxes, sk: seq<word>, p: Pair)
    requires |sk| % 2 == 0
    ensures Rounds(sb, Reversed(sk), Turn(Rounds(sb, sk, p))) == Turn(p)
    decreases |sk|
  {
    hide Round, Turn;
    if sk != [] {
      var q := Round(sb, sk[0], sk[1], p);
      RoundsBack(sb, sk[2..], q);
      RoundsAppend(sb, Reversed(sk[2..]), sk[..2], Turn(Rounds(sb, sk, p)));
      assert sk[..2] == [sk[0], sk[1]];
      RoundsOne(sb, sk[0], sk[1], Turn(q));
      RoundBack(sb, sk[0], sk[1], p);
    }
  }

  function Crypt(sb: Boxes, sk: seq<word>, p: Pair): Pair { Fp(Turn(Rounds(sb, sk, Ip(p)))) }

  lemma CryptBack(sb: Boxes, sk: seq<word>, p: Pair)
    requires |sk| % 2 == 0
    ensures Crypt(sb, Reversed(sk), Crypt(sb, sk, p)) == p
  {
    hide Ip, Fp, Rounds;
    FpUndoesIp(Turn(Rounds(sb, sk, Ip(p))));
    RoundsBack(sb, sk, Ip(p));
    FpUndoesIp(p);
  }

  // ---- blocks of eight bytes

  /** `GET_UINT32` */
  function GetWord(b: seq<byte>, i: nat): word
    requires i + 4 <= |b|
  {
    ((b[i] as word) << 24) | ((b[i + 1] as word) << 16) | ((b[i + 2] as word) << 8) | (b[i + 3] as word)
  }

  /** `PUT_UINT32` */
  function PutWord(n: word): (r: seq<byte>)
    ensures |r| == 4
  {
    [((n >> 24) & 0xFF) as byte, ((n >> 16) & 0xFF) as byte, ((n >> 8) & 0xFF) as byte, (n & 0xFF) as byte]
  }

  lemma WordBack(b0: byte, b1: byte, b2: byte, b3: byte)
    ensures PutWord(GetWord([b0, b1, b2, b3], 0)) == [b0, b1, b2, b3]
  {
  }

  lemma BytesBack(n: word)
    ensures GetWord(PutWord(n), 0) == n
  {
  }

  /** `des_crypt` on eight bytes. */
  function CryptBlock(sb: Boxes, sk: seq<word>, b: seq<byte>): (r: seq<byte>)
    requires |b| == 8
    ensures |r| == 8
  {
    var p := Crypt(sb, sk, Pair(GetWord(b, 0), GetWord(b, 4)));
    PutWord(p.x) + PutWord(p.y)
  }

  lemma PairOfBytes(p: Pair)
    ensures var b := PutWord(p.x) + PutWord(p.y); GetWord(b, 0) == p.x && GetWord(b, 4) == p.y
  {
    hide GetWord, PutWord;
    WordsOf(PutWord(p.x), PutWord(p.y));
    BytesBack(p.x);
    BytesBack(p.y);
  }

  lemma BytesOfPair(b: seq<byte>)
    requires |b| == 8
    ensures PutWord(GetWord(b, 0)) + PutWord(GetWord(b, 4)) == b
  {
    hide GetWord, PutWord;
    var l, r := [b[0], b[1], b[2], b[3]], [b[4], b[5], b[6], b[7]];
    assert b == l + r;
    WordsOf(l, r);
    WordBack(b[0], b[1], b[2], b[3]);
    WordBack(b[4], b[5], b[6], b[7]);
  }

  lemma BlockBack(sb: Boxes, sk: seq<word>, b: seq<byte>)
    requires |b| == 8 && |sk| % 2 == 0
    ensures CryptBlock(sb, Reversed(sk), CryptBlock(sb, sk, b)) == b
  {
    hide Crypt, GetWord, PutWord;
    var p := Pair(GetWord(b, 0), GetWord(b, 4));
    CryptBack(sb, sk, p);
    PairOfBytes(Crypt(sb, sk, p));
    BytesOfPair(b);
  }

  lemma WordsOf(a: seq<byte>, b: seq<byte>)
    requires |a| == 4 && |b| == 4
    ensures GetWord(a + b, 0) == GetWord(a, 0) && GetWord(a + b, 4) == GetWord(b, 0)
  {
  }

  function Blocks(sb: Boxes, sk: seq<word>, text: seq<byte>): (r: seq<byte>)
    requires |text| % 8 == 0
    ensures |r| == |text|
    decreases |text|
  {
    if text == [] then [] else CryptBlock(sb, sk, text[..8]) + Blocks(sb, sk, text[8..])
  }

  lemma {:induction false} BlocksBack(sb: Boxes, sk: seq<word>, text: seq<byte>)
    requires |text| % 8 == 0 && |sk| % 2 == 0
    ensures Blocks(sb, Reversed(sk), Blocks(sb, sk, text)) == text
    decreases |text|
  {
    hide CryptBlock;
    if text != [] {
      var a, b := CryptBlock(sb, sk, text[..8]), Blocks(sb, sk, text[8..]);
      assert (a + b)[..8] == a && (a + b)[8..] == b;
      BlockBack(sb, sk, text[..8]);
      BlocksBack(sb, sk, text[8..]);
    }
  }

  lemma {:induction false} BlocksPush(sb: Boxes, sk: seq<word>, text: seq<byte>, b: seq<byte>)
    requires |text| % 8 == 0 && |b| == 8
    ensures Blocks(sb, sk, text + b) == Blocks(sb, sk, text) + CryptBlock(sb, sk, b)
    decreases |text|
  {
    hide CryptBlock;
    if text == [] {
      assert text + b == b && b[..8] == b && b[8..] == [];
      assert Blocks(sb, sk, b) == CryptBlock(sb, sk, b) + Blocks(sb, sk, []);
    } else {
      assert (text + b)[..8] == text[..8] && (text + b)[8..] == text[8..] + b;
      BlocksPush(sb, sk, text[8..], b);
    }
  }

  // ---- padding

  datatype Mode = Iso7816 | Pkcs7

  /** The byte `k`, for the values that padding uses. */
  function Count(k: nat): byte
    requires 1 <= k <= 8
  {
    if k == 1 then 1 else if k == 2 then 2 else if k == 3 then 3 else if k == 4 then 4
    else if k == 5 then 5 else if k == 6 then 6 else if k == 7 then 7 else 8
  }

  /** The value of a byte; all values above 8 are alike here. */
  function Value(b: byte): (k: nat)
    ensures k <= 9 && (1 <= k <= 8 ==> Count(k) == b) && forall i :: 1 <= i <= 8 && Count(i) == b ==> k == i
  {
    if b == 0 then 0 else if b == 1 then 1 else if b == 2 then 2 else if b == 3 then 3 else if b == 4 then 4
    else if b == 5 then 5 else if b == 6 then 6 else if b == 7 then 7 else if b == 8 then 8 else 9
  }

  /** Byte `j` of the `k` bytes that complete the last block. */
  function PadByte(mode: Mode, k: nat, j: nat): byte
    requires 1 <= k <= 8 && j < k
  {
    if mode.Pkcs7? then Count(k) else if j == 0 then 0x80 else 0
  }

  function Padding(mode: Mode, k: nat): (r: seq<byte>)
    requires 1 <= k <= 8
    ensures |r| == k
  {
    seq(k, j requires 0 <= j < k => PadByte(mode, k, j))
  }

  function Padded(mode: Mode, text: seq<byte>): (r: seq<byte>)
    ensures |r| % 8 == 0 && |text| < |r| <= |text| + 8
  {
    text + Padding(mode, 8 - |text| % 8)
  }

  /** `padding_add_iso7816_4` and `padding_add_pkcs7` */
  method AddPadding(buf: array<byte>, offset: nat, mode: Mode)
    requires buf.Length == 8 && offset < 8
    modifies buf
    ensures buf[..] == old(buf[..offset]) + Padding(mode, 8 - offset)
  {
    if mode.Iso7816? {
      buf[offset] := 0x80;
      forall i | offset < i < 8 { buf[i] := 0; }
    } else {
      var x := Count(8 - offset);
      forall i | offset <= i < 8 { buf[i] := x; }
    }
  }

  /** The text ends with `k` bytes of padding. */
  predicate Ends(mode: Mode, text: seq<byte>, k: nat) {
    1 <= k <= 8 && k <= |text| && forall j :: 0 <= j < k ==> text[|text| - k + j] == PadByte(mode, k, j)
  }

  lemma EndsAt(mode: Mode, text: seq<byte>, k: nat, j: nat)
    requires Ends(mode, text, k) && j < k
    ensures text[|text| - k + j] == PadByte(mode, k, j)
  {
  }

  lemma EndsOnce(mode: Mode, text: seq<byte>, k: nat, k': nat)
    requires Ends(mode, text, k) && Ends(mode, text, k')
    ensures k == k'
  {
    if mode.Pkcs7? {
      assert PadByte(mode, k, k - 1) == text[|text| - k + (k - 1)];
      assert PadByte(mode, k', k' - 1) == text[|text| - k' + (k' - 1)];
      assert Value(Count(k)) == k && Value(Count(k')) == k';
    } else if k < k' {
      IsoOnce(text, k, k');
    } else if k' < k {
      IsoOnce(text, k', k);
    }
  }

  lemma IsoOnce(text: seq<byte>, k: nat, k': nat)
    requires k < k' && Ends(Iso7816, text, k)
    ensures !Ends(Iso7816, text, k')
  {
    assert text[|text| - k + 0] == PadByte(Iso7816, k, 0);
    if Ends(Iso7816, text, k') { EndsAt(Iso7816, text, k', k' - k); }
  }

  lemma PaddedEnds(mode: Mode, text: seq<byte>)
    ensures Ends(mode, Padded(mode, text), 8 - |text| % 8)
  {
  }

  /** `padding_remove_iso7816_4`: zeros up to a byte 0x80, among the last eight. */
  method RemoveIso(text: seq<byte>) returns (padding: nat)
    requires |text| >= 8
    ensures padding != 0 ==> Ends(Iso7816, text, padding)
    ensures padding == 0 ==> forall k: nat :: !Ends(Iso7816, text, k)
  {
    padding := 1;
    var i: nat := 0;
    while i < 8
      invariant i <= 8 && padding == i + 1
      invariant forall j :: |text| - i <= j < |text| ==> text[j] == 0
    {
      var last := text[|text| - 1 - i];
      if last == 0 {
        padding := padding + 1;
      } else if last == 0x80 {
        return;
      } else {
        break;
      }
      i := i + 1;
    }
    padding := 0;
    forall k: nat ensures !Ends(Iso7816, text, k) { NoIso(text, i, k); }
  }

  lemma NoIso(text: seq<byte>, i: nat, k: nat)
    requires |text| >= 8 && i <= 8 && forall j :: |text| - i <= j < |text| ==> text[j] == 0
    requires i < 8 ==> text[|text| - 1 - i] != 0 && text[|text| - 1 - i] != 0x80
    ensures !Ends(Iso7816, text, k)
  {
    if Ends(Iso7816, text, k) {
      assert text[|text| - k + 0] == PadByte(Iso7816, k, 0) == 0x80;
      if k > i + 1 { EndsAt(Iso7816, text, k, k - 1 - i); }
    }
  }

  /** `padding_remove_pkcs7`; a count above 8 is refused by the caller whatever the loop finds. */
  method RemovePkcs(text: seq<byte>) returns (padding: nat)
    requires |text| >= 8
    ensures 1 <= padding <= 8 ==> Ends(Pkcs7, text, padding)
    ensures !(1 <= padding <= 8) ==> forall k: nat :: !Ends(Pkcs7, text, k)
  {
    padding := Value(text[|text| - 1]);
    var count := padding;
    var i: nat := 1;
    while i < count && count <= 8
      invariant padding == count && 1 <= i && (if 1 <= count <= 8 then i <= count else i == 1)
      invariant 1 <= count <= 8 ==> forall j :: |text| - i <= j < |text| ==> text[j] == Count(count)
    {
      if Value(text[|text| - 1 - i]) != count {
        padding := 0;
        break;
      }
      i := i + 1;
    }
    if !(1 <= padding <= 8) {
      forall k: nat ensures !Ends(Pkcs7, text, k) { NoPkcs(text, i, k); }
    }
  }

  /** The sixteen rounds of `des_crypt`, two a turn. */
  method CryptHalves(sb: Boxes, sk: seq<word>, p: Pair) returns (q: Pair)
    requires |sk| == 32
    ensures q == Turn(Rounds(sb, sk, p))
  {
    hide Mix, Rounds;
    var x, y, i := p.x, p.y, 0;
    assert sk[0..] == sk;
    while i < 32
      invariant 0 <= i <= 32 && i % 4 == 0
      invariant Rounds(sb, sk[i..], Pair(x, y)) == Rounds(sb, sk, p)
    {
      TwoRounds(sb, sk[i..], Pair(x, y));
      x := Mix(sb, sk[i], sk[i + 1], y, x);
      y := Mix(sb, sk[i + 2], sk[i + 3], x, y);
      assert sk[i..][4..] == sk[i + 4..];
      i := i + 4;
    }
    NoRounds(sb, sk[32..], Pair(x, y));
    q := Pair(y, x);
  }

  lemma NoRounds(sb: Boxes, sk: seq<word>, p: Pair)
    requires sk == []
    ensures Rounds(sb, sk, p) == p
  {
  }

  lemma TwoRounds(sb: Boxes, sk: seq<word>, p: Pair)
    requires |sk| >= 4
    ensures var x := Mix(sb, sk[0], sk[1], p.y, p.x);
      Rounds(sb, sk, p) == Rounds(sb, sk[4..], Pair(x, Mix(sb, sk[2], sk[3], x, p.y)))
  {
    hide Mix;
    assert sk[2..][2..] == sk[4..];
    assert Rounds(sb, sk, p) == Rounds(sb, sk[2..], Round(sb, sk[0], sk[1], p));
  }

  /** `des_crypt` */
  method CryptInto(sb: Boxes, sk: seq<word>, input: seq<byte>, output: array<byte>, at: nat)
    requires |sk| == 32 && |input| == 8 && at + 8 <= output.Length
    modifies output
    ensures output[..] == old(output[..at]) + CryptBlock(sb, sk, input) + old(output[at + 8..])
  {
    hide GetWord, PutWord, Ip, Fp, Rounds;
    var q := CryptHalves(sb, sk, Ip(Pair(GetWord(input, 0), GetWord(input, 4))));
    var p := Fp(q);
    var out := PutWord(p.x) + PutWord(p.y);
    forall k | 0 <= k < 8 { output[at + k] := out[k]; }
  }

  /** The loop over whole blocks. */
  method CryptBlocks(sb: Boxes, sk: seq<word>, text: seq<byte>, buffer: array<byte>) returns (i: nat)
    requires |sk| == 32 && |text| <= buffer.Length
    modifies buffer
    ensures i == |text| / 8 * 8 && buffer[..i] == Blocks(sb, sk, text[..i])
  {
    hide CryptBlock, Blocks;
    i := 0;
    EmptyBlocks(sb, sk);
    while i < |text| - 7
      invariant i <= |text| && i % 8 == 0
      invariant buffer[..i] == Blocks(sb, sk, text[..i])
    {
      CryptInto(sb, sk, text[i..i + 8], buffer, i);
      BlocksPush(sb, sk, text[..i], text[i..i + 8]);
      assert text[..i] + text[i..i + 8] == text[..i + 8];
      assert buffer[..i + 8] == buffer[..i] + CryptBlock(sb, sk, text[i..i + 8]);
      i := i + 8;
    }
  }

  datatype Result = Ok(text: seq<byte>) | InvalidKey | InvalidLength | InvalidText

  /** The key schedule; all that matters is that it yields 32 subkeys. */
  type Schedule = seq<byte> -> seq<word>

  function Encoded(sb: Boxes, sk: seq<word>, mode: Mode, text: seq<byte>): seq<byte> {
    Blocks(sb, sk, Padded(mode, text))
  }

  /** `desencode` */
  method Encode(sb: Boxes, schedule: Schedule, key: seq<byte>, mode: Mode, text: seq<byte>) returns (r: Result)
    requires |schedule(key)| == 32
    ensures r == if |key| != 8 then InvalidKey else Ok(Encoded(sb, schedule(key), mode, text))
  {
    hide CryptBlock, Padding, Padded, Blocks;
    if |key| != 8 {
      return InvalidKey;
    }
    var sk := schedule(key);
    var chunk := (|text| + 8) / 8 * 8;
    var buffer := new byte[chunk];
    var i := CryptBlocks(sb, sk, text, buffer);
    var tail := Tail(mode, text[i..]);
    CryptInto(sb, sk, tail, buffer, i);
    BlocksPush(sb, sk, text[..i], tail);
    PaddedSplit(mode, text, i);
    assert buffer[..] == buffer[..i] + CryptBlock(sb, sk, tail);
    r := Ok(buffer[..]);
  }

  /** `add_padding`: the last block, from fewer than eight bytes. */
  method Tail(mode: Mode, src: seq<byte>) returns (block: seq<byte>)
    requires |src| < 8
    ensures block == src + Padding(mode, 8 - |src|)
  {
    hide Padding;
    var tail := new byte[8];
    forall k | 0 <= k < |src| { tail[k] := src[k]; }
    assert tail[..|src|] == src;
    AddPadding(tail, |src|, mode);
    block := tail[..];
  }

  lemma PaddedSplit(mode: Mode, text: seq<byte>, i: nat)
    requires i == |text| / 8 * 8
    ensures Padded(mode, text) == text[..i] + (text[i..] + Padding(mode, 8 - |text[i..]|))
  {
    hide Padding;
    assert text == text[..i] + text[i..];
  }

  lemma EmptyBlocks(sb: Boxes, sk: seq<word>)
    ensures Blocks(sb, sk, []) == []
  {
  }

  /** `desdecode` */
  method Decode(sb: Boxes, schedule: Schedule, key: seq<byte>, mode: Mode, text: seq<byte>) returns (r: Result)
    requires |schedule(key)| == 32
    ensures |key| != 8 ==> r == InvalidKey
    ensures |key| == 8 && (|text| % 8 != 0 || text == []) ==> r == InvalidLength
    ensures |key| == 8 && |text| % 8 == 0 && text != [] ==>
      var plain := Blocks(sb, Reversed(schedule(key)), text);
      if exists k: nat :: Ends(mode, plain, k) then
        r.Ok? && exists k: nat :: Ends(mode, plain, k) && r.text == plain[..|plain| - k]
      else r == InvalidText
  {
    hide CryptBlock, Ends, Blocks, Reversed;
    if |key| != 8 {
      return InvalidKey;
    }
    var esk := schedule(key);
    var sk := ReverseKeys(esk);
    if |text| % 8 != 0 || |text| == 0 {
      return InvalidLength;
    }
    var buffer := new byte[|text|];
    var i := CryptBlocks(sb, sk, text, buffer);
    assert text[..i] == text && buffer[..i] == buffer[..];
    var padding;
    if mode.Iso7816? { padding := RemoveIso(buffer[..]); } else { padding := RemovePkcs(buffer[..]); }
    if padding == 0 || padding > 8 {
      return InvalidText;
    }
    r := Ok(buffer[..|text| - padding]);
  }

  /** The loop that fills the decryption subkeys. */
  method ReverseKeys(esk: seq<word>) returns (sk: seq<word>)
    requires |esk| == 32
    ensures sk == Reversed(esk)
  {
    var a := new word[32];
    var i := 0;
    while i < 32
      invariant 0 <= i <= 32 && i % 2 == 0
      invariant a[..i] == Reversed(esk[32 - i..])
    {
      a[i] := esk[30 - i];
      a[i + 1] := esk[31 - i];
      var rest := esk[30 - i..];
      assert rest[2..] == esk[32 - i..] && rest[..2] == [esk[30 - i], esk[31 - i]];
      assert a[..i + 2] == a[..i] + [a[i], a[i + 1]];
      i := i + 2;
    }
    sk := a[..];
    assert esk[0..] == esk && a[..32] == a[..];
  }

  /** Decryption gives back every encrypted text, in both padding modes. */
  method RoundTrip(sb: Boxes, schedule: Schedule, key: seq<byte>, mode: Mode, text: seq<byte>) returns (r: Result)
    requires |key| == 8 && |schedule(key)| == 32
    ensures r == Ok(text)
  {
    hide Blocks, PadByte, Padding;
    var e := Encode(sb, schedule, key, mode, text);
    r := Decode(sb, schedule, key, mode, e.text);
    BlocksBack(sb, schedule(key), Padded(mode, text));
    PaddedEnds(mode, text);
    var plain := Padded(mode, text);
    var k: nat :| Ends(mode, plain, k) && r.text == plain[..|plain| - k];
    EndsOnce(mode, plain, k, 8 - |text| % 8);
  }

  lemma NoPkcs(text: seq<byte>, i: nat, k: nat)
    requires |text| >= 8 && 1 <= i <= 8
    requires var count := Value(text[|text| - 1]);
      1 <= count <= 8 ==> i < count && Value(text[|text| - 1 - i]) != count
    ensures !Ends(Pkcs7, text, k)
  {
    if Ends(Pkcs7, text, k) {
      assert text[|text| - k + (k - 1)] == PadByte(Pkcs7, k, k - 1) == Count(k);
      if i < k { EndsAt(Pkcs7, text, k, k - 1 - i); }
    }
  }
}
