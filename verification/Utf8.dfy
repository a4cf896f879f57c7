/** UTF-8 as RFC 3629 lays it out, and the check the BSON writer makes of every string it copies. */
module Utf8 {
  import opened Words

  const MAXUNICODE := 0x10FFFF

  /** Section 3 of RFC 3629; the surrogates that it excludes are kept, as the writer keeps them. */
  function Utf8Of(c: nat): (r: bytes)
    requires c <= MAXUNICODE
    ensures 1 <= |r| <= 4
  {
    if c < 0x80 then [c]
    else if c < 0x800 then [0xC0 + c / 64, 0x80 + c % 64]
    else if c < 0x1_0000 then [0xE0 + c / 4096, 0x80 + c / 64 % 64, 0x80 + c % 64]
    else [0xF0 + c / 0x4_0000, 0x80 + c / 4096 % 64, 0x80 + c / 64 % 64, 0x80 + c % 64]
  }

  predicate Tail(b: byte) { 0x80 <= b < 0xC0 }

  /** Length of the character at the start of `s`, after the table of section 4; 0 if there is none. */
  function CharLen(s: bytes): (n: nat)
    ensures n <= 4 && n <= |s|
  {
    if s == [] then 0
    else if s[0] < 0x80 then 1
    else if 0xC2 <= s[0] < 0xE0 then if |s| >= 2 && Tail(s[1]) then 2 else 0
    else if 0xE0 <= s[0] < 0xF0 then
      if |s| >= 3 && Tail(s[1]) && Tail(s[2]) && (s[0] == 0xE0 ==> s[1] >= 0xA0) then 3 else 0
    else if 0xF0 <= s[0] < 0xF5 then
      if |s| >= 4 && Tail(s[1]) && Tail(s[2]) && Tail(s[3]) && (s[0] == 0xF0 ==> s[1] >= 0x90) && (s[0] == 0xF4 ==> s[1] < 0x90)
      then 4 else 0
    else 0
  }

  lemma EncodedLen(c: nat, rest: bytes)
    requires c <= MAXUNICODE
    ensures CharLen(Utf8Of(c) + rest) == |Utf8Of(c)|
  {
    var s := Utf8Of(c) + rest;
    assert s[0] == Utf8Of(c)[0];
    assert |Utf8Of(c)| >= 2 ==> s[1] == Utf8Of(c)[1];
    assert |Utf8Of(c)| >= 3 ==> s[2] == Utf8Of(c)[2];
    assert |Utf8Of(c)| >= 4 ==> s[3] == Utf8Of(c)[3];
  }

  function Num(b: byte): nat { b }

  /** The character at the start of `s`. */
  function Char(s: bytes): (c: nat)
    requires CharLen(s) > 0
    ensures c <= MAXUNICODE
  {
    match CharLen(s)
    case 1 => s[0]
    case 2 => 64 * (Num(s[0]) % 32) + Num(s[1]) % 64
    case 3 => 4096 * (Num(s[0]) % 16) + 64 * (Num(s[1]) % 64) + Num(s[2]) % 64
    case _ => 0x4_0000 * (Num(s[0]) % 8) + 4096 * (Num(s[1]) % 64) + 64 * (Num(s[2]) % 64) + Num(s[3]) % 64
  }

  lemma Groups(a: nat, b: nat, c: nat, d: nat)
    requires b < 64 && c < 64 && d < 64
    ensures var n := 0x4_0000 * a + 4096 * b + 64 * c + d;
      n % 64 == d && n / 64 % 64 == c && n / 4096 % 64 == b && n / 4096 == 64 * a + b && n / 0x4_0000 == a
  {
    var n := 0x4_0000 * a + 4096 * b + 64 * c + d;
    assert n / 64 == 4096 * a + 64 * b + c;
    assert n / 4096 == 64 * a + b;
    assert n / 0x4_0000 == a;
  }

  lemma Low6(b: nat)
    requires 0x80 <= b < 0xC0
    ensures b % 64 == b - 0x80
  {
  }

  lemma One(a: nat)
    requires a < 0x80
    ensures Utf8Of(a) == [a]
  {
  }

  lemma Two(a: nat, b: nat)
    requires 0xC2 <= a < 0xE0 && 0x80 <= b < 0xC0
    ensures a % 32 == a - 0xC0 && Utf8Of(64 * (a % 32) + b % 64) == [a, b]
  {
    Low6(b);
    Groups(0, 0, a - 0xC0, b - 0x80);
  }

  lemma Three(a: nat, b: nat, c: nat)
    requires 0xE0 <= a < 0xF0 && 0x80 <= b < 0xC0 && 0x80 <= c < 0xC0 && (a == 0xE0 ==> b >= 0xA0)
    ensures a % 16 == a - 0xE0 && Utf8Of(4096 * (a % 16) + 64 * (b % 64) + c % 64) == [a, b, c]
  {
    Low6(b);
    Low6(c);
    Groups(0, a - 0xE0, b - 0x80, c - 0x80);
  }

  lemma Four(a: nat, b: nat, c: nat, d: nat)
    requires 0xF0 <= a < 0xF5 && 0x80 <= b < 0xC0 && 0x80 <= c < 0xC0 && 0x80 <= d < 0xC0
    requires (a == 0xF0 ==> b >= 0x90) && (a == 0xF4 ==> b < 0x90)
    ensures var n := 0x4_0000 * (a % 8) + 4096 * (b % 64) + 64 * (c % 64) + d % 64;
      a % 8 == a - 0xF0 && n <= MAXUNICODE && Utf8Of(n) == [a, b, c, d]
  {
    Low6(b);
    Low6(c);
    Low6(d);
    Groups(a - 0xF0, b - 0x80, c - 0x80, d - 0x80);
  }

  lemma LenIsEncoded(s: bytes)
    requires CharLen(s) > 0
    ensures Utf8Of(Char(s)) == s[..CharLen(s)]
  {
    hide Utf8Of;
    match CharLen(s)
    case 1 => One(s[0]);
    case 2 => Two(s[0], s[1]);
    case 3 => Three(s[0], s[1], s[2]);
    case _ => Four(s[0], s[1], s[2], s[3]);
  }

  function Utf8All(cs: seq<nat>): bytes
    requires forall i :: 0 <= i < |cs| ==> cs[i] <= MAXUNICODE
  {
    if cs == [] then [] else Utf8Of(cs[0]) + Utf8All(cs[1..])
  }

  /** `s` is a run of characters. */
  predicate Text(s: bytes) { s == [] || (CharLen(s) > 0 && Text(s[CharLen(s)..])) }

  lemma TextStep(s: bytes)
    ensures Text(s) <==> s == [] || (CharLen(s) > 0 && Text(s[CharLen(s)..]))
  {
  }

  lemma {:induction false} EncodedIsText(cs: seq<nat>)
    requires forall i :: 0 <= i < |cs| ==> cs[i] <= MAXUNICODE
    ensures Text(Utf8All(cs))
  {
    if cs != [] {
      EncodedLen(cs[0], Utf8All(cs[1..]));
      EncodedIsText(cs[1..]);
      assert Utf8All(cs)[|Utf8Of(cs[0])|..] == Utf8All(cs[1..]);
    }
  }

  lemma {:induction false} TextIsEncoded(s: bytes) returns (cs: seq<nat>)
    requires Text(s)
    ensures (forall i :: 0 <= i < |cs| ==> cs[i] <= MAXUNICODE) && Utf8All(cs) == s
  {
    hide Utf8Of, Char, CharLen;
    if s == [] {
      cs := [];
    } else {
      var n := CharLen(s);
      var rest := TextIsEncoded(s[n..]);
      LenIsEncoded(s);
      cs := [Char(s)] + rest;
      assert s == s[..n] + s[n..];
    }
  }

  /** Texts are exactly the encodings of lists of characters. */
  lemma TextIff(s: bytes)
    ensures Text(s) <==> exists cs: seq<nat> :: (forall i :: 0 <= i < |cs| ==> cs[i] <= 0x10FFFF) && Utf8All(cs) == s
  {
    if Text(s) {
      var cs := TextIsEncoded(s);
    }
    forall cs: seq<nat> | (forall i :: 0 <= i < |cs| ==> cs[i] <= MAXUNICODE) && Utf8All(cs) == s ensures Text(s) {
      EncodedIsText(cs);
    }
  }

  const LIMITS := [0xFF, 0x7F, 0x7FF, 0xFFFF]

  function Shift(c: nat, k: nat): nat { if k == 0 then c else 2 * Shift(c, k - 1) }

  function Times32(c: nat, k: nat): nat { if k == 0 then c else 32 * Times32(c, k - 1) }

  /** `utf8_copy` without the copying: bits of the first byte say how many bytes follow; the value they
      carry must need that many. Masks and shifts are written as arithmetic. */
  method Utf8Copy(s: bytes) returns (n: nat)
    requires s != []
    ensures n == CharLen(s)
  {
    hide CharLen, Lead, Times32;
    LeadFirst(s);
    var c: nat, res: nat := s[0], 0;
    if c < 0x80 {
      return 1;
    }
    var count := 0;
    while c / 0x40 % 2 == 1
      invariant count < |s| && count <= 8 && Lead(s[0], count) && c == Shift(s[0], count)
      invariant forall k :: 1 <= k <= count ==> Tail(s[k])
      invariant res == Low(s, count)
      decreases 8 - count
    {
      LeadNext(s[0], count);
      count := count + 1;
      if |s| <= count || !Tail(s[count]) {
        NotEnough(s, count);
        return 0;
      }
      res := res * 64 + Num(s[count]) % 0x40;
      c := 2 * c;
    }
    LeadNext(s[0], count);
    res := res + Times32(c % 0x80, count);
    Checked(s, count);
    if count > 3 || res > MAXUNICODE || res <= LIMITS[count] {
      return 0;
    }
    n := count + 1;
  }

  /** The first `k` bits after the top bit are ones. */
  predicate Lead(b: byte, k: nat) {
    b >= 0x80 && (k >= 1 ==> b >= 0xC0) && (k >= 2 ==> b >= 0xE0) && (k >= 3 ==> b >= 0xF0) && (k >= 4 ==> b >= 0xF8)
    && (k >= 5 ==> b >= 0xFC) && (k >= 6 ==> b >= 0xFE) && (k >= 7 ==> b == 0xFF) && k <= 7
  }

  function Low(s: bytes, k: nat): nat
    requires k < |s|
  {
    if k == 0 then 0 else 64 * Low(s, k - 1) + Num(s[k]) % 0x40
  }

  lemma LeadFirst(s: bytes)
    requires s != []
    ensures if s[0] < 0x80 then CharLen(s) == 1 else Lead(s[0], 0)
  {
  }

  lemma LeadNext(b: byte, k: nat)
    requires Lead(b, k)
    ensures Shift(b, k) / 0x40 % 2 == 1 <==> k < 7 && Lead(b, k + 1)
  {
    assert Shift(b, 1) == 2 * b && Shift(b, 2) == 4 * b && Shift(b, 3) == 8 * b;
    assert Shift(b, 4) == 16 * b && Shift(b, 5) == 32 * b && Shift(b, 6) == 64 * b;
    assert Shift(b, 7) == 2 * Shift(b, 6);
  }

  lemma NotEnough(s: bytes, k: nat)
    requires s != [] && 1 <= k <= 7 && Lead(s[0], k) && (k >= |s| || !Tail(s[k]))
    ensures CharLen(s) == 0
  {
  }

  lemma Sum0(s: bytes)
    requires s != []
    ensures Low(s, 0) + Times32(Shift(s[0], 0) % 0x80, 0) <= 0xFF
  {
  }

  lemma Sum1(a: nat, b: nat)
    requires 0xC0 <= a < 0xE0 && 0x80 <= b < 0xC0
    ensures b % 0x40 + 32 * (2 * a % 0x80) == 64 * (a - 0xC0) + (b - 0x80)
  {
    assert 2 * a == 0x80 * 3 + 2 * (a - 0xC0);
  }

  lemma Sum2(a: nat, b: nat, c: nat)
    requires 0xE0 <= a < 0xF0 && 0x80 <= b < 0xC0 && 0x80 <= c < 0xC0
    ensures 64 * (b % 0x40) + c % 0x40 + 1024 * (4 * a % 0x80) == 4096 * (a - 0xE0) + 64 * (b - 0x80) + (c - 0x80)
  {
    assert 4 * a == 0x80 * 7 + 4 * (a - 0xE0);
  }

  lemma Sum3(a: nat, b: nat, c: nat, d: nat)
    requires 0xF0 <= a < 0xF8 && 0x80 <= b < 0xC0 && 0x80 <= c < 0xC0 && 0x80 <= d < 0xC0
    ensures 64 * (64 * (b % 0x40) + c % 0x40) + d % 0x40 + 32768 * (8 * a % 0x80)
         == 0x4_0000 * (a - 0xF0) + 4096 * (b - 0x80) + 64 * (c - 0x80) + (d - 0x80)
  {
    assert 8 * a == 0x80 * 15 + 8 * (a - 0xF0);
  }

  lemma Unfold(s: bytes, b: nat, x: nat)
    ensures Shift(b, 1) == 2 * b && Shift(b, 2) == 4 * b && Shift(b, 3) == 8 * b
    ensures Times32(x, 1) == 32 * x && Times32(x, 2) == 1024 * x && Times32(x, 3) == 32768 * x
    ensures |s| > 1 ==> Low(s, 1) == Num(s[1]) % 0x40
    ensures |s| > 2 ==> Low(s, 2) == 64 * (Num(s[1]) % 0x40) + Num(s[2]) % 0x40
    ensures |s| > 3 ==> Low(s, 3) == 64 * (64 * (Num(s[1]) % 0x40) + Num(s[2]) % 0x40) + Num(s[3]) % 0x40
  {
    assert |s| > 1 ==> Low(s, 1) == 64 * Low(s, 0) + Num(s[1]) % 0x40;
    assert |s| > 2 ==> Low(s, 2) == 64 * Low(s, 1) + Num(s[2]) % 0x40;
  }

  lemma Checked(s: bytes, k: nat)
    requires k < |s| && Lead(s[0], k) && !(k < 7 && Lead(s[0], k + 1)) && forall j :: 1 <= j <= k ==> Tail(s[j])
    ensures var r := Low(s, k) + Times32(Shift(s[0], k) % 0x80, k);
      CharLen(s) == if k > 3 || r > MAXUNICODE || r <= LIMITS[k] then 0 else k + 1
  {
    hide Low, Shift, Times32;
    Unfold(s, s[0], Shift(s[0], k) % 0x80);
    match k
    case 0 => Sum0(s);
    case 1 => Sum1(s[0], s[1]);
    case 2 => Sum2(s[0], s[1], s[2]);
    case 3 => Sum3(s[0], s[1], s[2], s[3]);
    case _ =>
  }
}
