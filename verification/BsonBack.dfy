/** Decoding an encoded document gives the document back. */
module BsonBack {
  import opened Words
  import opened Utf8
  import opened BsonFormat

  // ---- words and strings

  lemma Int32Back(i: int, rest: bytes)
    requires Is32(i)
    ensures i + Power(4) >= 0 && Int32(Word(i, 4) + rest) == Some((i, rest))
  {
    hide Le, FromLe, DecWord, Power;
    Powers();
    WordBack(Unsigned(i, 4), 4, rest);
  }

  lemma Int64Back(i: int64, rest: bytes)
    ensures i + Power(8) >= 0 && Int64(Word(i, 8) + rest) == Some((i, rest))
  {
    hide Le, FromLe, DecWord, Power;
    Powers();
    WordBack(Unsigned(i, 8), 8, rest);
  }

  lemma LengthBack(n: nat, rest: bytes)
    requires n < 0x8000_0000
    ensures Int32(Le(n, 4) + rest) == Some((n, rest))
  {
    Int32Back(n, rest);
  }

  lemma TakeBack(a: bytes, b: bytes)
    ensures Take(a + b, |a|) == Some((a, b))
  {
    assert (a + b)[..|a|] == a && (a + b)[|a|..] == b;
  }

  lemma {:induction false} CStringBack(s: bytes, rest: bytes)
    requires NoZero(s)
    ensures CString(s + [0] + rest) == Some((s, rest))
  {
    var b := s + [0] + rest;
    if s == [] {
      assert b[1..] == rest;
    } else {
      CStringBack(s[1..], rest);
      assert b[1..] == s[1..] + [0] + rest && [s[0]] + s[1..] == s;
    }
  }

  // ---- keys of arrays

  lemma {:induction false} DecimalDigits(n: nat)
    ensures forall i :: 0 <= i < |Decimal(n)| ==> Digit(Decimal(n)[i])
  {
    if n >= 10 { DecimalDigits(n / 10); }
  }

  lemma {:induction false} DigitsBack(n: nat, t: bytes)
    ensures Digits(Decimal(n) + t, 0) == Digits(t, n)
  {
    if n < 10 {
      assert (Decimal(n) + t)[1..] == t;
    } else {
      var d: byte := 48 + n % 10;
      DigitsBack(n / 10, [d] + t);
      assert Decimal(n) + t == Decimal(n / 10) + ([d] + t);
      assert ([d] + t)[1..] == t;
    }
  }

  lemma KeyNumber(n: nat)
    requires n + 1 < 0x8000_0000
    ensures KeyBack(Decimal(n), true) == Index(n + 1) && NoZero(Decimal(n))
  {
    hide Decimal;
    DecimalDigits(n);
    DigitsBack(n, []);
    assert Decimal(n) + [] == Decimal(n);
    assert Digit(Decimal(n)[0]);
  }

  lemma {:induction false} DecimalText(s: bytes)
    requires forall i :: 0 <= i < |s| ==> s[i] < 0x80
    ensures Text(s)
  {
    if s != [] { DecimalText(s[1..]); }
  }

  // ---- scalars

  lemma QuotBack(n: nat)
    ensures Quot(n * 1000, 1000) == n
  {
  }

  lemma DateBack(d: bytes, rest: bytes)
    requires |d| == 4
    ensures DecDate(Le(FromLe(d) * 1000, 8) + rest) == Some((Made(BSON_DATE, d), rest))
  {
    hide Le, FromLe, Power, Int64, Quot;
    Powers();
    FromLeFits(d);
    LeFromLe(d);
    var m := FromLe(d);
    assert m < 0x1_0000_0000;
    QuotBack(m);
    Int64Back(m * 1000, rest);
  }

  lemma BinaryBack(d: bytes, rest: bytes)
    requires d != [] && |d| - 1 < 0x8000_0000
    ensures |d| - 1 + Power(4) >= 0 && DecBinary(Word(|d| - 1, 4) + d + rest) == Some((Made(BSON_BINARY, d), rest))
  {
    hide Le, Power, Int32, Take, Word;
    Powers();
    Int32Back(|d| - 1, d + rest);
    TakeBack(d, rest);
    assert Word(|d| - 1, 4) + d + rest == Word(|d| - 1, 4) + (d + rest);
  }

  lemma {:induction false} FromLeFits(b: bytes)
    ensures FromLe(b) < Power(|b|)
  {
    if b != [] { FromLeFits(b[1..]); }
  }

  lemma {:induction false} LeFromLe(b: bytes)
    ensures Le(FromLe(b), |b|) == b
  {
    if b != [] {
      LeFromLe(b[1..]);
      assert FromLe(b) % 256 == b[0] && FromLe(b) / 256 == FromLe(b[1..]);
      assert [b[0]] + b[1..] == b;
    }
  }

  lemma RegexBack(p: bytes, o: bytes, rest: bytes)
    requires NoZero(p) && NoZero(o)
    ensures DecRegex(p + [0] + o + [0] + rest) == Some((Made(BSON_REGEX, p + [0] + o + [0]), rest))
  {
    CStringBack(p, o + [0] + rest);
    CStringBack(o, rest);
    assert p + [0] + o + [0] + rest == p + [0] + (o + [0] + rest);
  }

  lemma RawBack(tag: byte, d: bytes, more: int, rest: bytes)
    requires RawFits(d, more)
    ensures DecRaw(tag, d + rest, more) == Some((Made(tag, d), rest))
  {
    Prefix4(d, rest);
    TakeBack(d, rest);
  }

  lemma Prefix4(d: bytes, rest: bytes)
    requires |d| >= 4
    ensures Int32(d).Some? == Int32(d + rest).Some?
    ensures Int32(d).Some? ==> Int32(d).value.0 == Int32(d + rest).value.0
  {
    assert (d + rest)[..4] == d[..4];
  }

  lemma TaggedBack(s: bytes, rest: bytes)
    requires Tagged(s) && EncTagged(s).Some? && SoundString(s) && |EncTagged(s).value.pay| < 0x8000_0000
    ensures var f := EncTagged(s).value; DecValue(f.tag, f.pay + rest) == Some((Str(s), rest))
  {
    hide Le, FromLe, Power, Int32, Int64, CString, DecRaw, DecRegex, LastZero, Text, Take, Word, DecBinary, DecString, DecDate;
    var tag, d := s[1], s[2..];
    var f := EncTagged(s).value;
    assert s == [0, tag] + d;
    if tag == BSON_BINARY {
      BinaryBack(d, rest);
    } else if tag == BSON_OBJECTID || tag == BSON_TIMESTAMP {
      TakeBack(d, rest);
    } else if tag == BSON_DBPOINTER {
      RawBack(tag, d, 16, rest);
    } else if tag == BSON_JSCODE || tag == BSON_SYMBOL {
      RawBack(tag, d, 4, rest);
    } else if tag == BSON_CODEWS {
      RawBack(tag, d, 0, rest);
    } else if tag == BSON_DATE {
      DateBack(d, rest);
    } else if tag == BSON_REGEX {
      RegexTagged(d, rest);
    } else {
      assert f.pay + rest == rest;
      assert [0, tag] + [] == s;
    }
  }

  lemma RegexTagged(d: bytes, rest: bytes)
    requires d != [] && d[|d| - 1] == 0
    requires var z := LastZero(d[..|d| - 1]); z >= 0 && NoZero(d[..z])
    ensures var z := LastZero(d[..|d| - 1]);
      var pay := d[..z] + [0] + d[z + 1..|d| - 1] + [0];
      pay == d && DecRegex(pay + rest) == Some((Made(BSON_REGEX, d), rest))
  {
    hide LastZero;
    var z := LastZero(d[..|d| - 1]);
    var p, o := d[..z], d[z + 1..|d| - 1];
    forall i | 0 <= i < |o| ensures o[i] != 0 { assert d[..|d| - 1][z + 1 + i] == o[i]; }
    assert d[..|d| - 1][z] == d[z];
    assert p + [0] + o + [0] == d;
    RegexBack(p, o, rest);
  }

  lemma TextBack(s: bytes, rest: bytes)
    requires |s| + 1 < 0x8000_0000
    ensures DecString(Le(|s| + 1, 4) + s + [0] + rest) == Some((Str(s), rest))
  {
    hide Le, Int32, Take;
    var z := s + [0];
    LengthBack(|z|, z + rest);
    TakeBack(z, rest);
    Assoc(Le(|z|, 4), s, [0]);
    Assoc(Le(|z|, 4), z, rest);
    assert z[..|s|] == s;
  }

  lemma StringBack(s: bytes, rest: bytes)
    requires EncString(s).Some? && SoundString(s) && |EncString(s).value.pay| < 0x8000_0000
    ensures var f := EncString(s).value; DecValue(f.tag, f.pay + rest) == Some((Str(s), rest))
  {
    if Tagged(s) {
      TaggedBack(s, rest);
    } else {
      hide Le, DecString, Text;
      TextBack(s, rest);
    }
  }

  // ---- documents

  lemma {:induction false} Counts(es: seq<Entry>, at: int, depth: nat)
    requires EncFields(es, at, depth).Some?
    ensures |es| <= |EncFields(es, at, depth).value|
  {
    if es != [] { Counts(es[1..], Next(at), depth); }
  }

  predicate KeysFrom(es: seq<Entry>, at: int) { at >= 0 ==> forall i :: 0 <= i < |es| ==> es[i].key == Index(at + 1 + i) }

  lemma ValueBack(v: Value, depth: nat, rest: bytes)
    requires EncValue(v, depth).Some? && Sound(v) && |EncValue(v, depth).value.pay| < 0x8000_0000
    ensures var f := EncValue(v, depth).value; DecValue(f.tag, f.pay + rest) == Some((v, rest))
    decreases v, 1
  {
    hide EncFields, DecFields, EncString, Int32, Int64, Le, FromLe, Power, SoundString;
    match v
    case Bool(b) => assert ([if b then 1 else 0] + rest)[1..] == rest;
    case Int(i) => if Is32(i) { Int32Back(i, rest); } else { Int64Back(i, rest); }
    case Real(bits) => Powers(); WordBack(bits, 8, rest);
    case Str(s) => StringBack(s, rest);
    case Table(es) => DocBack(es, if IsArray(es) then 0 else -1, depth + 1, rest);
  }

  lemma DocLength(body: bytes)
    ensures |Doc(body)| == |body| + 5
  {
  }

  lemma DocBack(es: seq<Entry>, at: int, depth: nat, rest: bytes)
    requires EncFields(es, at, depth).Some? && AllSound(es) && KeysFrom(es, at) && at <= 0
    requires |EncFields(es, at, depth).value| + 5 < 0x8000_0000
    ensures DecDoc(Doc(EncFields(es, at, depth).value) + rest, at >= 0) == Some((Table(es), rest))
    decreases es, 1
  {
    hide EncFields, DecFields, Int32, Le;
    var body := EncFields(es, at, depth).value;
    LengthBack(|body| + 5, body + ([0] + rest));
    TakeBack(body, [0] + rest);
    assert Doc(body) + rest == Le(|body| + 5, 4) + (body + ([0] + rest));
    Counts(es, at, depth);
    FieldsBack(es, at, depth, []);
    assert body + [] == body;
    NoFields(at >= 0);
    assert es + [] == es;
    assert ([0] + rest)[1..] == rest;
  }

  lemma NoFields(arr: bool)
    ensures DecFields([], arr) == Some([])
  {
  }

  function Prepend(es: seq<Entry>, r: Option<seq<Entry>>): Option<seq<Entry>> {
    if r.None? then None else Some(es + r.value)
  }

  /** Fields may be followed by others. */
  lemma {:induction false} FieldsBack(es: seq<Entry>, at: int, depth: nat, rest: bytes)
    requires EncFields(es, at, depth).Some? && AllSound(es) && KeysFrom(es, at)
    requires |EncFields(es, at, depth).value| < 0x8000_0000 && at + |es| < 0x8000_0000
    ensures DecFields(EncFields(es, at, depth).value + rest, at >= 0) == Prepend(es, DecFields(rest, at >= 0))
    decreases es, 0
  {
    hide EncValue, DecValue, DecFields, EncEntry, Sound;
    if es == [] {
      assert [] + rest == rest;
      NoEntries(DecFields(rest, at >= 0));
    } else {
      var a, b := EncEntry(es[0], at, depth).value, EncFields(es[1..], Next(at), depth).value;
      forall i | 0 <= i < |es[1..]| && at >= 0 ensures es[1..][i].key == Index(at + 2 + i) { assert es[1..][i] == es[i + 1]; }
      EntryBack(es[0], at, depth, b + rest);
      FieldsBack(es[1..], Next(at), depth, rest);
      assert a + b + rest == a + (b + rest);
      OneMore(es, DecFields(rest, at >= 0));
    }
  }

  lemma NoEntries(r: Option<seq<Entry>>)
    ensures Prepend([], r) == r
  {
    assert r.Some? ==> [] + r.value == r.value;
  }

  lemma OneMore(es: seq<Entry>, r: Option<seq<Entry>>)
    requires es != []
    ensures Prepend([es[0]], Prepend(es[1..], r)) == Prepend(es, r)
  {
    if r.Some? { assert [es[0]] + (es[1..] + r.value) == es + r.value; }
  }

  lemma EntryBack(e: Entry, at: int, depth: nat, rest: bytes)
    requires EncEntry(e, at, depth).Some? && SoundEntry(e) && (at >= 0 ==> e.key == Index(at + 1) && at + 1 < 0x8000_0000)
    requires |EncEntry(e, at, depth).value| < 0x8000_0000
    ensures DecFields(EncEntry(e, at, depth).value + rest, at >= 0) == Prepend([e], DecFields(rest, at >= 0))
    decreases e, 2
  {
    hide EncValue, DecValue, CString, Sound, Text, Decimal, Number;
    var key, f := KeyOf(e.key, at).value, EncValue(e.value, depth).value;
    var b := EncEntry(e, at, depth).value + rest;
    assert b[0] == f.tag && b[1..] == key + [0] + (f.pay + rest);
    if at >= 0 { KeyNumber(at); }
    CStringBack(key, f.pay + rest);
    ValueBack(e.value, depth, rest);
    assert Entry(KeyBack(key, at >= 0), e.value) == e;
  }

  // ---- only such documents come back

  lemma {:induction false} CStringNoZero(b: bytes)
    ensures CString(b).Some? ==> NoZero(CString(b).value.0)
  {
    if b != [] && b[0] != 0 { CStringNoZero(b[1..]); }
  }

  lemma RawOnly(tag: byte, d: bytes, more: int, rest: bytes)
    requires DecRaw(tag, d + rest, more).Some? && DecRaw(tag, d + rest, more).value.0 == Made(tag, d)
    ensures RawFits(d, more)
  {
    hide Int32;
    var r := DecRaw(tag, d + rest, more).value.0;
    var raw := Take(d + rest, Int32(d + rest).value.0 + more).value.0;
    assert raw == r.s[2..] && Made(tag, d).s[2..] == d;
    Prefix4(d, rest);
  }

  lemma RegexOnly(d: bytes, b: bytes)
    requires DecRegex(b).Some? && DecRegex(b).value.0 == Made(BSON_REGEX, d)
    ensures d != [] && d[|d| - 1] == 0
    ensures var z := LastZero(d[..|d| - 1]); z >= 0 && NoZero(d[..z])
  {
    hide CString;
    var p := CString(b).value.0;
    var o := CString(CString(b).value.1).value.0;
    CStringNoZero(b);
    CStringNoZero(CString(b).value.1);
    assert Made(BSON_REGEX, d).s[2..] == d && Made(BSON_REGEX, p + [0] + o + [0]).s[2..] == p + [0] + o + [0];
    var e := d[..|d| - 1];
    assert e == p + [0] + o;
    assert e[|p|] == 0;
    forall i | |p| < i < |e| ensures e[i] != 0 { assert e[i] == o[i - |p| - 1]; }
    assert LastZero(e) == |p| && d[..|p|] == p;
  }

  /** A binary string without a subtype is written with the length -1. */
  lemma EmptyBinary(rest: bytes)
    ensures -1 + Power(4) >= 0 && DecBinary(Word(-1, 4) + [] + rest).None?
  {
    Int32Back(-1, rest);
    assert Word(-1, 4) + [] + rest == Word(-1, 4) + rest;
  }

  lemma TaggedOnly(s: bytes, rest: bytes)
    requires Tagged(s) && EncTagged(s).Some?
    requires var r := DecValue(EncTagged(s).value.tag, EncTagged(s).value.pay + rest); r.Some? && r.value.0 == Str(s)
    ensures SoundString(s)
  {
    hide Le, FromLe, Power, Int32, Int64, CString, DecRaw, DecRegex, LastZero, Text, Take, RawFits, DecBinary, DecString;
    var tag, d := s[1], s[2..];
    assert s == [0, tag] + d;
    if tag == BSON_DBPOINTER {
      RawOnly(tag, d, 16, rest);
    } else if tag == BSON_JSCODE || tag == BSON_SYMBOL {
      RawOnly(tag, d, 4, rest);
    } else if tag == BSON_CODEWS {
      RawOnly(tag, d, 0, rest);
    } else if tag == BSON_REGEX {
      RegexOnly(d, EncTagged(s).value.pay + rest);
    } else if tag == BSON_BINARY && d == [] {
      EmptyBinary(rest);
    }
  }

  lemma PlainSound(s: bytes)
    requires !Tagged(s)
    ensures SoundString(s)
  {
  }

  lemma ValueOnly(v: Value, depth: nat, rest: bytes)
    requires EncValue(v, depth).Some? && |EncValue(v, depth).value.pay| < 0x8000_0000
    requires var f := EncValue(v, depth).value; var r := DecValue(f.tag, f.pay + rest); r.Some? && r.value.0 == v
    ensures Sound(v)
    decreases v, 1
  {
    hide EncFields, DecFields, EncTagged, Int32, Int64, Le, FromLe, Power, SoundString, DecScalar;
    match v
    case Str(s) => if Tagged(s) { TaggedOnly(s, rest); } else { PlainSound(s); }
    case Table(es) => DocOnly(es, if IsArray(es) then 0 else -1, depth + 1, rest);
    case _ =>
  }

  lemma DocOnly(es: seq<Entry>, at: int, depth: nat, rest: bytes)
    requires EncFields(es, at, depth).Some? && KeysFrom(es, at) && at <= 0 && |EncFields(es, at, depth).value| + 5 < 0x8000_0000
    requires var r := DecDoc(Doc(EncFields(es, at, depth).value) + rest, at >= 0); r.Some? && r.value.0 == Table(es)
    ensures AllSound(es)
    decreases es, 1
  {
    hide EncFields, DecFields, Int32, Le, AllSound;
    var body := EncFields(es, at, depth).value;
    LengthBack(|body| + 5, body + ([0] + rest));
    TakeBack(body, [0] + rest);
    assert Doc(body) + rest == Le(|body| + 5, 4) + (body + ([0] + rest));
    Counts(es, at, depth);
    FieldsOnly(es, at, depth);
  }

  lemma {:induction false} FieldsOnly(es: seq<Entry>, at: int, depth: nat)
    requires EncFields(es, at, depth).Some? && KeysFrom(es, at)
    requires |EncFields(es, at, depth).value| < 0x8000_0000 && at + |es| < 0x8000_0000
    requires DecFields(EncFields(es, at, depth).value, at >= 0) == Some(es)
    ensures AllSound(es)
    decreases es, 0
  {
    hide EncValue, DecFields, EncEntry, SoundEntry;
    if es != [] {
      var a, b := EncEntry(es[0], at, depth).value, EncFields(es[1..], Next(at), depth).value;
      forall i | 0 <= i < |es[1..]| && at >= 0 ensures es[1..][i].key == Index(at + 2 + i) { assert es[1..][i] == es[i + 1]; }
      EntryOnly(es, at, depth, b);
      EntryBack(es[0], at, depth, b);
      assert ([es[0]] + DecFields(b, at >= 0).value)[1..] == DecFields(b, at >= 0).value;
      FieldsOnly(es[1..], Next(at), depth);
    }
  }

  lemma EntryOnly(es: seq<Entry>, at: int, depth: nat, rest: bytes)
    requires es != [] && EncEntry(es[0], at, depth).Some? && (at >= 0 ==> es[0].key == Index(at + 1) && at + 1 < 0x8000_0000)
    requires |EncEntry(es[0], at, depth).value| < 0x8000_0000
    requires DecFields(EncEntry(es[0], at, depth).value + rest, at >= 0) == Some(es)
    ensures SoundEntry(es[0])
    decreases es[0], 2
  {
    hide EncValue, DecValue, CString, Sound, Text, Decimal, Number;
    var e := es[0];
    var key, f := KeyOf(e.key, at).value, EncValue(e.value, depth).value;
    var b := EncEntry(e, at, depth).value + rest;
    assert b[0] == f.tag && b[1..] == key + [0] + (f.pay + rest);
    CStringNoZero(b[1..]);
    if at >= 0 { KeyNumber(at); }
    CStringBack(key, f.pay + rest);
    ValueOnly(e.value, depth, rest);
  }

  /** A table comes back exactly if it has no zeros in keys and its tagged strings are in the form that
      reading produces. */
  lemma RoundTrip(es: seq<Entry>)
    requires Encode(es).Some? && |Encode(es).value| < 0x8000_0000
    ensures Decode(Encode(es).value) == Some(Table(es)) <==> AllSound(es)
  {
    hide DecDoc, EncFields, AllSound, Doc;
    var b := Encode(es).value;
    assert b + [] == b;
    DocLength(EncFields(es, -1, 0).value);
    if AllSound(es) { DocBack(es, -1, 0, []); }
    if Decode(b) == Some(Table(es)) { DocOnly(es, -1, 0, []); }
  }
}
