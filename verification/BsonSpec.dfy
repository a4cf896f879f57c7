/**
 * The document grammar of the BSON specification, version 1.1, as a relation between bytes and Lua
 * values, with the type bytes, sizes and length rules written out. What is written derives from it
 * with the values of the table, and what derives from it is read as these values.
 */
module BsonSpec {
  import opened Words
  import opened LittleEndian
  import opened Utf8
  import opened BsonFormat
  import opened BsonBack

  // ---- the grammar

  /** The length counts the bytes of the string and its final zero. */
  predicate IsString(p: bytes, s: bytes) {
    |p| >= 4 && IsInt32(p[..4], |s| + 1) && p[4..] == s + [0]
  }

  ghost predicate SomeString(p: bytes) { exists s :: IsString(p, s) }

  /** Two strings without zeros, each followed by one. */
  predicate IsRegex(p: bytes, pattern: bytes, options: bytes) {
    p == pattern + [0] + options + [0] && NoZero(pattern) && NoZero(options)
  }

  /** Milliseconds to seconds, truncated toward zero and cut to 32 bits. */
  function Seconds(ms: int): nat {
    (if ms >= 0 then ms / 1000 else -(-ms / 1000)) % 0x1_0000_0000
  }

  /** The payload `p` of a type that Lua sees as a string: a zero, the type byte, then `d`. */
  ghost predicate IsTagged(tag: byte, p: bytes, d: bytes)
    decreases |p|, 0
  {
    match tag as int
    case 5 => d != [] && |p| >= 4 && IsInt32(p[..4], |d| - 1) && p[4..] == d
    case 7 => |d| == 12 && p == d
    case 9 => |d| == 4 && exists ms :: IsInt64(p, ms) && Seconds(ms) == Unsigned4(d)
    case 10 => p == d == []
    case 11 => p == d && exists pattern, options :: IsRegex(p, pattern, options)
    case 12 => p == d && |d| > 12 && SomeString(d[..|d| - 12])
    case 13 => p == d && SomeString(d)
    case 14 => p == d && SomeString(d)
    case 15 =>
      p == d && |d| > 4 && IsInt32(d[..4], |d|)
      && exists n, scope :: 4 <= n <= |d| && SomeString(d[4..n]) && IsDocument(d[n..], scope, false)
    case 17 => |d| == 8 && p == d
    case 127 => p == d == []
    case 255 => p == d == []
    case _ => false
  }

  /** `p` is the payload of the type `tag` that stands for `v`. */
  ghost predicate IsPayload(tag: byte, p: bytes, v: Value)
    decreases |p|, 1
  {
    match v
    case Real(bits) => tag == 1 && |p| == 8 && Unsigned8(p) == bits
    case Bool(b) => tag == 8 && p == [if b then 1 else 0]
    case Int(i) => (tag == 16 && IsInt32(p, i)) || (tag == 18 && IsInt64(p, i))
    case Str(s) => (tag == 2 && IsString(p, s)) || (|s| >= 2 && s[0] == 0 && s[1] == tag && IsTagged(tag, p, s[2..]))
    case Table(es) => (tag == 3 && IsDocument(p, es, false)) || (tag == 4 && IsDocument(p, es, true))
    case Other => false
  }

  /** The length counts itself, the elements and the final zero. */
  ghost predicate IsDocument(p: bytes, es: seq<Entry>, arr: bool)
    decreases |p|, 0
  {
    |p| >= 5 && IsInt32(p[..4], |p|) && p[|p| - 1] == 0 && IsElements(p[4..|p| - 1], es, arr)
  }

  predicate Splits(b: bytes, tag: byte, key: bytes, p: bytes, rest: bytes) { b == [tag] + key + [0] + p + rest }

  ghost predicate IsElements(b: bytes, es: seq<Entry>, arr: bool)
    decreases |b|, 0
  {
    if es == [] then b == []
    else exists tag, key, p, rest ::
      Splits(b, tag, key, p, rest) && IsName(key, es[0].key, arr) && IsPayload(tag, p, es[0].value) && IsElements(rest, es[1..], arr)
  }

  /** In arrays the names are the numbers from 0 in decimal, where Lua counts from 1. */
  predicate IsName(key: bytes, k: Key, arr: bool) {
    if arr then k.Index? && 0 < k.i < 0x8000_0000 && IsDecimal(key, k.i - 1) else NoZero(key) && k == Name(key)
  }

  /** Digits without leading zeros. */
  predicate IsDecimal(s: bytes, n: nat) {
    s != [] && (forall i :: 0 <= i < |s| ==> 48 <= s[i] <= 57) && (|s| > 1 ==> s[0] != 48) && DecimalValue(s) == n
  }

  function DecimalValue(s: bytes): int {
    if s == [] then 0 else 10 * DecimalValue(s[..|s| - 1]) + Num(s[|s| - 1]) - 48
  }

  // ---- words

  lemma ReadInt32(p: bytes, i: int, rest: bytes)
    requires IsInt32(p, i)
    ensures Is32(i) && Int32(p + rest) == Some((i, rest))
  {
    Powers();
    FromLe4(p);
    assert (p + rest)[..4] == p && (p + rest)[4..] == rest;
  }

  lemma ReadInt64(p: bytes, i: int, rest: bytes)
    requires IsInt64(p, i)
    ensures -0x8000_0000_0000_0000 <= i < 0x8000_0000_0000_0000 && Int64(p + rest) == Some((i, rest))
  {
    Powers();
    FromLe8(p);
    FromLe4(p[..4]);
    FromLe4(p[4..]);
    assert (p + rest)[..8] == p && (p + rest)[8..] == rest;
    assert p[4..][3] == p[7];
  }

  lemma WrittenInt32(i: int)
    requires Is32(i)
    ensures i + Power(4) >= 0 && IsInt32(Word(i, 4), i)
  {
    Powers();
    var u := Unsigned(i, 4);
    LeBack(u, 4);
    FromLe4(Le(u, 4));
  }

  lemma WrittenInt64(i: int64)
    ensures i + Power(8) >= 0 && IsInt64(Word(i, 8), i)
  {
    Powers();
    var u := Unsigned(i, 8);
    LeBack(u, 8);
    var p := Le(u, 8);
    FromLe8(p);
    FromLe4(p[..4]);
    FromLe4(p[4..]);
    assert p[4..][3] == p[7];
  }

  // ---- reading

  lemma ReadText(p: bytes, s: bytes, rest: bytes)
    requires IsString(p, s)
    ensures DecString(p + rest) == Some((Str(s), rest))
  {
    hide Int32, Take;
    ReadInt32(p[..4], |s| + 1, p[4..] + rest);
    assert p + rest == p[..4] + (p[4..] + rest);
    TakeBack(p[4..], rest);
    assert (s + [0])[..|s|] == s;
  }

  lemma ReadRaw(tag: byte, d: bytes, n: int, more: nat, rest: bytes)
    requires |d| >= 4 && IsInt32(d[..4], n) && n + more == |d|
    ensures DecRaw(tag, d + rest, more) == Some((Made(tag, d), rest))
  {
    hide Int32, DecRaw;
    ReadInt32(d[..4], n, d[4..]);
    assert d == d[..4] + d[4..];
    RawBack(tag, d, more, rest);
  }

  lemma ReadBinary(p: bytes, d: bytes, rest: bytes)
    requires d != [] && |p| >= 4 && IsInt32(p[..4], |d| - 1) && p[4..] == d
    ensures DecBinary(p + rest) == Some((Made(BSON_BINARY, d), rest))
  {
    hide Int32, Take;
    ReadInt32(p[..4], |d| - 1, d + rest);
    assert p + rest == p[..4] + (d + rest);
    TakeBack(d, rest);
  }

  lemma ReadDate(p: bytes, ms: int, d: bytes, rest: bytes)
    requires |d| == 4 && IsInt64(p, ms) && Seconds(ms) == Unsigned4(d)
    ensures DecDate(p + rest) == Some((Made(BSON_DATE, d), rest))
  {
    hide Int64, Le, FromLe;
    ReadInt64(p, ms, rest);
    FromLe4(d);
    LeFromLe(d);
    assert Quot(ms, 1000) % 0x1_0000_0000 == Seconds(ms);
  }

  lemma ReadReal(p: bytes, bits: word64, rest: bytes)
    requires |p| == 8 && Unsigned8(p) == bits
    ensures DecScalar(1, p + rest) == Some((Real(bits), rest))
  {
    FromLe8(p);
    hide FromLe, Unsigned8;
    assert (p + rest)[..8] == p && (p + rest)[8..] == rest;
  }

  /** What a tagged payload is read as. */
  lemma ReadTagged(tag: byte, p: bytes, d: bytes, rest: bytes)
    requires IsTagged(tag, p, d)
    ensures DecValue(tag, p + rest) == Some((Made(tag, d), rest))
  {
    hide DecDate, DecBinary, DecRaw, DecRegex, DecString, IsInt32, IsInt64, IsDocument, Int32, Int64, DecWord, Seconds, IsString;
    match tag as int
    case 5 => ReadBinary(p, d, rest);
    case 7 => TakeBack(d, rest);
    case 9 =>
      var ms :| IsInt64(p, ms) && Seconds(ms) == Unsigned4(d);
      ReadDate(p, ms, d, rest);
    case 10 => assert p + rest == rest;
    case 11 =>
      var pattern, options :| IsRegex(p, pattern, options);
      RegexBack(pattern, options, rest);
    case 12 =>
      var s :| IsString(d[..|d| - 12], s);
      StringHead(d[..|d| - 12], s);
      assert d[..|d| - 12][..4] == d[..4];
      ReadRaw(tag, d, |s| + 1, 16, rest);
    case 13 =>
      var s :| IsString(d, s);
      StringHead(d, s);
      ReadRaw(tag, d, |s| + 1, 4, rest);
    case 14 =>
      var s :| IsString(d, s);
      StringHead(d, s);
      ReadRaw(tag, d, |s| + 1, 4, rest);
    case 15 => ReadRaw(tag, d, |d|, 0, rest);
    case 17 => TakeBack(d, rest);
    case 127 => assert p + rest == rest;
    case 255 => assert p + rest == rest;
    case _ => assert false;
  }

  lemma StringHead(p: bytes, s: bytes)
    requires IsString(p, s)
    ensures |p| == |s| + 5 && IsInt32(p[..4], |s| + 1)
  {
  }

  lemma {:induction false} ReadDigits(s: bytes, t: bytes, acc: nat)
    requires forall i :: 0 <= i < |s| ==> 48 <= s[i] <= 57
    ensures DecimalValue(s) >= 0
    ensures Digits(s + t, 0) == Digits(t, DecimalValue(s))
  {
    if s == [] {
      assert s + t == t;
    } else {
      var init, last := s[..|s| - 1], s[|s| - 1];
      ReadDigits(init, [last] + t, acc);
      assert s + t == init + ([last] + t) && ([last] + t)[1..] == t;
    }
  }

  lemma ReadName(key: bytes, k: Key, arr: bool)
    requires IsName(key, k, arr)
    ensures NoZero(key) && KeyBack(key, arr) == k
  {
    if arr {
      ReadDigits(key, [], 0);
      assert key + [] == key;
    }
  }

  lemma ReadPayload(tag: byte, p: bytes, v: Value, rest: bytes)
    requires IsPayload(tag, p, v)
    ensures DecValue(tag, p + rest) == Some((v, rest))
    decreases |p|, 1
  {
    hide DecDoc, DecString, IsDocument, IsTagged, IsInt32, IsInt64, IsString, Int32, Int64;
    match v
    case Real(bits) => ReadReal(p, bits, rest);
    case Bool(b) => assert (p + rest)[1..] == rest;
    case Int(i) => if tag == 16 { ReadInt32(p, i, rest); } else { ReadInt64(p, i, rest); }
    case Str(s) =>
      if tag == 2 && IsString(p, s) {
        ReadText(p, s, rest);
      } else {
        ReadTagged(tag, p, s[2..], rest);
        assert [0, tag] + s[2..] == s;
      }
    case Table(es) => ReadDocument(p, es, tag == 4, rest);
    case Other =>
  }

  lemma ReadDocument(p: bytes, es: seq<Entry>, arr: bool, rest: bytes)
    requires IsDocument(p, es, arr)
    ensures DecDoc(p + rest, arr) == Some((Table(es), rest))
    decreases |p|, 0
  {
    hide Int32, Take, DecFields, IsElements, IsInt32;
    var body := p[4..|p| - 1];
    ReadElements(body, es, arr);
    ReadInt32(p[..4], |p|, body + ([0] + rest));
    TakeBack(body, [0] + rest);
    assert p + rest == p[..4] + (body + ([0] + rest));
    assert ([0] + rest)[1..] == rest;
  }

  lemma {:induction false} ReadElements(b: bytes, es: seq<Entry>, arr: bool)
    requires IsElements(b, es, arr)
    ensures DecFields(b, arr) == Some(es)
    decreases |b|, 0
  {
    hide IsPayload, DecValue, IsName, CString, KeyBack;
    if es != [] {
      var tag, key, p, rest :| Splits(b, tag, key, p, rest)
        && IsName(key, es[0].key, arr) && IsPayload(tag, p, es[0].value) && IsElements(rest, es[1..], arr);
      assert Splits(b, tag, key, p, rest);
      ReadName(key, es[0].key, arr);
      ReadPayload(tag, p, es[0].value, rest);
      ReadElements(rest, es[1..], arr);
      CStringBack(key, p + rest);
      assert b[0] == tag && b[1..] == key + [0] + (p + rest);
      assert [Entry(es[0].key, es[0].value)] + es[1..] == es;
    }
  }

  /** Every document of the grammar is read as the values it stands for. */
  lemma DecodesEvery(b: bytes, es: seq<Entry>)
    requires IsDocument(b, es, false)
    ensures Decode(b) == Some(Table(es))
  {
    ReadDocument(b, es, false, []);
    assert b + [] == b;
  }

  // ---- writing

  /** Tagged strings hold a payload of their type, and keys have no zeros. */
  ghost predicate Canonical(v: Value)
    decreases v
  {
    match v
    case Str(s) => Tagged(s) ==> exists p :: IsTagged(s[1], p, s[2..])
    case Table(es) => AllCanonical(es)
    case _ => true
  }

  ghost predicate AllCanonical(es: seq<Entry>)
    decreases es
  {
    es == [] || (CanonicalEntry(es[0]) && AllCanonical(es[1..]))
  }

  ghost predicate CanonicalEntry(e: Entry)
    decreases e
  {
    (e.key.Name? ==> NoZero(e.key.s)) && Canonical(e.value)
  }

  lemma WrittenLength(n: nat)
    requires n < 0x8000_0000
    ensures IsInt32(Le(n, 4), n)
  {
    WrittenInt32(n);
  }

  lemma WrittenText(s: bytes)
    requires |s| + 1 < 0x8000_0000
    ensures IsString(Le(|s| + 1, 4) + s + [0], s)
  {
    hide *;
    WrittenLength(|s| + 1);
    StringFrom(Le(|s| + 1, 4), s);
  }

  lemma StringFrom(length: bytes, s: bytes)
    requires |length| == 4 && IsInt32(length, |s| + 1)
    ensures IsString(length + s + [0], s)
  {
    hide IsInt32;
    var p := length + s + [0];
    assert p[..4] == length && p[4..] == s + [0];
  }

  lemma WrittenBinary(d: bytes)
    requires d != [] && |d| - 1 < 0x8000_0000
    ensures |d| - 1 + Power(4) >= 0 && IsTagged(5, Word(|d| - 1, 4) + d, d)
  {
    hide Le;
    WrittenInt32(|d| - 1);
    var p := Word(|d| - 1, 4) + d;
    assert p[..4] == Word(|d| - 1, 4) && p[4..] == d;
  }

  lemma WrittenDate(d: bytes)
    requires |d| == 4
    ensures IsTagged(9, Le(FromLe(d) * 1000, 8), d)
  {
    hide Le, FromLe;
    FromLe4(d);
    var ms := FromLe(d) * 1000;
    WrittenInt64(ms);
    assert Seconds(ms) == Unsigned4(d);
  }

  lemma WrittenRegex(d: bytes, pattern: bytes, options: bytes)
    requires IsRegex(d, pattern, options)
    ensures d != [] && LastZero(d[..|d| - 1]) == |pattern|
    ensures d[..|pattern|] == pattern && d[|pattern| + 1..|d| - 1] == options
  {
    var e := d[..|d| - 1];
    assert e == pattern + [0] + options;
    forall i | |pattern| < i < |e| ensures e[i] != 0 { assert e[i] == options[i - |pattern| - 1]; }
    assert e[|pattern|] == 0;
  }

  /** Payloads that are the string itself. */
  predicate Verbatim(tag: byte) { tag == 12 || tag == 13 || tag == 14 || tag == 15 || tag == 7 || tag == 17 }

  lemma SameBytes(tag: byte, p: bytes, d: bytes)
    requires IsTagged(tag, p, d) && (Verbatim(tag) || tag == 10 || tag == 127 || tag == 255 || tag == 11)
    ensures p == d
  {
    hide IsRegex, SomeString, IsInt32, IsDocument;
  }

  /** A tagged string is written as the payload that it holds. */
  lemma WrittenTagged(s: bytes, p: bytes)
    requires Tagged(s) && EncTagged(s).Some? && |EncTagged(s).value.pay| < 0x8000_0000 && IsTagged(s[1], p, s[2..])
    ensures var f := EncTagged(s).value; f.tag == s[1] && IsTagged(f.tag, f.pay, s[2..])
  {
    hide Le, FromLe, LastZero, Text, IsRegex, IsInt32, IsInt64, SomeString, IsDocument, Word, Seconds;
    var tag, d := s[1], s[2..];
    if tag == 5 {
      TaggedBinary(p, d);
      WrittenBinary(d);
    } else if tag == 9 {
      WrittenDate(d);
    } else if tag == 11 {
      var pattern, options :| IsRegex(d, pattern, options);
      WrittenRegex(d, pattern, options);
      RegexIs(d, pattern, options);
    } else if Verbatim(tag) || tag == 10 || tag == 127 || tag == 255 {
      SameBytes(tag, p, d);
    }
  }

  lemma RegexIs(d: bytes, pattern: bytes, options: bytes)
    requires IsRegex(d, pattern, options)
    ensures d == pattern + [0] + options + [0]
  {
  }

  lemma TaggedBinary(p: bytes, d: bytes)
    requires IsTagged(5, p, d)
    ensures d != []
  {
  }

  lemma WrittenValue(v: Value, depth: nat)
    requires EncValue(v, depth).Some? && |EncValue(v, depth).value.pay| < 0x8000_0000 && Canonical(v)
    ensures var f := EncValue(v, depth).value; IsPayload(f.tag, f.pay, v)
    decreases v, 1
  {
    hide EncFields, EncTagged, IsTagged, IsDocument, IsString, IsInt32, IsInt64, Le, Word, Text, Doc;
    match v
    case Int(i) =>
      WrittenInt64(i);
      if Is32(i) { WrittenInt32(i); }
    case Real(bits) =>
      Powers();
      LeBack(bits, 8);
      FromLe8(Le(bits, 8));
    case Str(s) =>
      if Tagged(s) {
        var p :| IsTagged(s[1], p, s[2..]);
        WrittenTagged(s, p);
      } else {
        WrittenText(s);
      }
    case Table(es) =>
      WrittenDocument(es, if IsArray(es) then 0 else -1, depth + 1);
    case _ =>
  }

  lemma WrittenDocument(es: seq<Entry>, at: int, depth: nat)
    requires EncFields(es, at, depth).Some? && KeysFrom(es, at) && at <= 0 && AllCanonical(es)
    requires |Doc(EncFields(es, at, depth).value)| < 0x8000_0000
    ensures IsDocument(Doc(EncFields(es, at, depth).value), es, at >= 0)
    decreases es, 1
  {
    hide EncFields, AllCanonical, IsElements, Le, IsInt32;
    var body := EncFields(es, at, depth).value;
    var p := Doc(body);
    WrittenLength(|body| + 5);
    assert p[..4] == Le(|body| + 5, 4) && p[4..|p| - 1] == body;
    Counts(es, at, depth);
    WrittenElements(es, at, depth);
  }

  lemma {:induction false} DecimalIs(n: nat)
    ensures IsDecimal(Decimal(n), n)
  {
    DecimalDigits(n);
    if n >= 10 {
      DecimalIs(n / 10);
      var s := Decimal(n);
      assert s[..|s| - 1] == Decimal(n / 10);
      assert s[0] == Decimal(n / 10)[0];
      LeadingDigit(n / 10);
    }
  }

  lemma {:induction false} LeadingDigit(n: nat)
    requires n > 0
    ensures Decimal(n)[0] != 48
  {
    if n >= 10 { LeadingDigit(n / 10); }
  }

  lemma {:induction false} WrittenElements(es: seq<Entry>, at: int, depth: nat)
    requires EncFields(es, at, depth).Some? && KeysFrom(es, at) && AllCanonical(es)
    requires |EncFields(es, at, depth).value| < 0x8000_0000 && at + |es| < 0x8000_0000
    ensures IsElements(EncFields(es, at, depth).value, es, at >= 0)
    decreases es, 0
  {
    hide EncValue, IsPayload, IsName, CanonicalEntry, Text, KeyOf;
    if es != [] {
      var e := es[0];
      var key, f := KeyOf(e.key, at).value, EncValue(e.value, depth).value;
      var rest := EncFields(es[1..], Next(at), depth).value;
      forall i | 0 <= i < |es[1..]| && at >= 0 ensures es[1..][i].key == Index(at + 2 + i) { assert es[1..][i] == es[i + 1]; }
      WrittenEntry(e, at, depth);
      WrittenElements(es[1..], Next(at), depth);
      var b := EncFields(es, at, depth).value;
      assert b == [f.tag] + key + [0] + f.pay + rest;
      assert Splits(b, f.tag, key, f.pay, rest);
    }
  }

  lemma WrittenEntry(e: Entry, at: int, depth: nat)
    requires EncEntry(e, at, depth).Some? && |EncEntry(e, at, depth).value| < 0x8000_0000 && CanonicalEntry(e)
    requires at >= 0 ==> e.key == Index(at + 1) && at + 1 < 0x8000_0000
    ensures var key, f := KeyOf(e.key, at).value, EncValue(e.value, depth).value;
      IsName(key, e.key, at >= 0) && IsPayload(f.tag, f.pay, e.value)
    decreases e, 2
  {
    hide EncValue, IsPayload, IsName, Canonical, Text, KeyOf;
    WrittenName(e.key, at);
    WrittenValue(e.value, depth);
  }

  lemma WrittenName(k: Key, at: int)
    requires KeyOf(k, at).Some? && (at >= 0 ==> at + 1 < 0x8000_0000)
    requires if at >= 0 then k == Index(at + 1) else k.Name? ==> NoZero(k.s)
    ensures IsName(KeyOf(k, at).value, k, at >= 0)
  {
    hide Text, IsDecimal;
    if at >= 0 { DecimalIs(at); }
  }

  /** Every document that is written from canonical values derives from the grammar, with these values. */
  lemma EncodesOnly(es: seq<Entry>)
    requires Encode(es).Some? && |Encode(es).value| < 0x8000_0000 && AllCanonical(es)
    ensures IsDocument(Encode(es).value, es, false)
  {
    hide EncFields, Doc, IsDocument;
    WrittenDocument(es, -1, 0);
  }

  // ---- what is written at all

  /** At most `room` tables inside each other. */
  predicate Nested(v: Value, room: int)
    decreases v
  {
    v.Table? ==> room > 0 && AllNested(v.es, room - 1)
  }

  predicate AllNested(es: seq<Entry>, room: int)
    decreases es
  {
    es == [] || (NestedEntry(es[0], room) && AllNested(es[1..], room))
  }

  predicate NestedEntry(e: Entry, room: int)
    decreases e
  {
    Nested(e.value, room)
  }

  ghost predicate TextRegex(d: bytes) {
    exists pattern, options :: IsRegex(d, pattern, options) && Text(pattern) && Text(options)
  }

  /** Strings are text or hold a payload; tables are sequences or have text keys without zeros. */
  ghost predicate Fit(v: Value)
    decreases v
  {
    match v
    case Str(s) =>
      if Tagged(s) then (exists p :: IsTagged(s[1], p, s[2..])) && (s[1] == 11 ==> TextRegex(s[2..])) else Text(s)
    case Table(es) => (Listed(es) || Named(es)) && AllFit(es)
    case Other => false
    case _ => true
  }

  /** The keys are 1, 2, and so on. */
  predicate Listed(es: seq<Entry>) { es != [] && forall i :: 0 <= i < |es| ==> es[i].key == Index(i + 1) }

  predicate Named(es: seq<Entry>) {
    forall i :: 0 <= i < |es| ==> es[i].key.Name? && Text(es[i].key.s) && NoZero(es[i].key.s)
  }

  ghost predicate AllFit(es: seq<Entry>)
    decreases es
  {
    es == [] || (FitEntry(es[0]) && AllFit(es[1..]))
  }

  ghost predicate FitEntry(e: Entry)
    decreases e
  {
    Fit(e.value)
  }

  lemma FitTagged(s: bytes)
    requires Tagged(s) && Fit(Str(s))
    ensures EncTagged(s).Some?
  {
    hide Le, FromLe, LastZero, IsInt32, IsInt64, SomeString, IsDocument, Word, Seconds, Text;
    var d := s[2..];
    if s[1] == 11 {
      var pattern, options :| IsRegex(d, pattern, options) && Text(pattern) && Text(options);
      WrittenRegex(d, pattern, options);
    }
  }

  /** Such values are written as long as no more than 128 tables are inside each other. */
  lemma FitValue(v: Value, depth: nat)
    requires Fit(v)
    ensures EncValue(v, depth).Some? <==> Nested(v, 128 - depth)
    decreases v, 1
  {
    hide EncFields, EncTagged, IsTagged, Text, AllFit, AllNested, TextRegex;
    match v
    case Str(s) => if Tagged(s) { FitTagged(s); }
    case Table(es) =>
      if depth < 128 {
        if !IsArray(es) { assert Named(es); }
        FitFields(es, if IsArray(es) then 0 else -1, depth + 1);
      }
    case _ =>
  }

  lemma {:induction false} FitFields(es: seq<Entry>, at: int, depth: nat)
    requires AllFit(es) && (at < 0 ==> Named(es))
    ensures EncFields(es, at, depth).Some? <==> AllNested(es, 128 - depth)
    decreases es, 0
  {
    hide EncEntry, NestedEntry, FitEntry, Text;
    if es != [] {
      FitField(es[0], at, depth);
      assert forall i :: 0 <= i < |es[1..]| ==> es[1..][i] == es[i + 1];
      FitFields(es[1..], Next(at), depth);
    }
  }

  lemma FitField(e: Entry, at: int, depth: nat)
    requires FitEntry(e) && (at < 0 ==> e.key.Name? && Text(e.key.s))
    ensures EncEntry(e, at, depth).Some? <==> NestedEntry(e, 128 - depth)
    decreases e, 2
  {
    hide EncValue, Fit, Nested, Text, Decimal;
    FitValue(e.value, depth);
  }

  /** A table of such values with text keys is encoded exactly when at most 128 tables are inside
      each other below it. */
  lemma EncodedIff(es: seq<Entry>)
    requires AllFit(es) && Named(es)
    ensures Encode(es).Some? <==> AllNested(es, 128)
  {
    FitFields(es, -1, 0);
  }
}
