/**
 * BSON documents (version 1.1 of the specification) as `lua-bson` writes and reads them, and the
 * index by which a scalar field is replaced in place.
 */
module BsonFormat {
  import opened Words
  import opened Utf8

  type int64 = x: int | -0x8000_0000_0000_0000 <= x < 0x8000_0000_0000_0000
  type word64 = x: int | 0 <= x < 0x1_0000_0000_0000_0000

  const BSON_REAL := 1
  const BSON_STRING := 2
  const BSON_DOCUMENT := 3
  const BSON_ARRAY := 4
  const BSON_BINARY := 5
  const BSON_OBJECTID := 7
  const BSON_BOOLEAN := 8
  const BSON_DATE := 9
  const BSON_NULL := 10
  const BSON_REGEX := 11
  const BSON_DBPOINTER := 12
  const BSON_JSCODE := 13
  const BSON_SYMBOL := 14
  const BSON_CODEWS := 15
  const BSON_INT32 := 16
  const BSON_TIMESTAMP := 17
  const BSON_INT64 := 18
  const BSON_MINKEY := 255
  const BSON_MAXKEY := 127
  const MAX_DEPTH := 128

  datatype Key = Index(i: int) | Name(s: bytes) | OtherKey

  /** A table is its pairs in the order of `lua_next`. Strings of at least two bytes that start with a
      zero carry a BSON type in the second byte. */
  datatype Value = Bool(b: bool) | Int(i: int64) | Real(bits: word64) | Str(s: bytes) | Table(es: seq<Entry>) | Other

  datatype Entry = Entry(key: Key, value: Value)

  /** What follows the key of a field. */
  datatype Field = Field(tag: byte, pay: bytes)

  // ---- writing

  /** Low 32 or 64 bits of a machine integer. */
  function Word(i: int, k: nat): bytes
    requires i + Power(k) >= 0
  {
    Le(Unsigned(i, k), k)
  }

  predicate Is32(i: int) { -0x8000_0000 <= i < 0x8000_0000 }

  function EncInt(i: int64): Field {
    Powers();
    if Is32(i) then Field(BSON_INT32, Word(i, 4)) else Field(BSON_INT64, Word(i, 8))
  }

  predicate Tagged(s: bytes) { |s| > 1 && s[0] == 0 }

  /** Place of the last zero in `s`, or -1. */
  function LastZero(s: bytes): (r: int)
    ensures -1 <= r < |s| && (r >= 0 ==> s[r] == 0) && forall i :: r < i < |s| ==> s[i] != 0
  {
    if s == [] then -1 else if s[|s| - 1] == 0 then |s| - 1 else LastZero(s[..|s| - 1])
  }

  /** Payload of a tagged string. */
  function EncTagged(s: bytes): Option<Field>
    requires Tagged(s)
  {
    var tag, d := s[1], s[2..];
    if tag == BSON_BINARY then (Powers(); Some(Field(tag, Word(|d| - 1, 4) + d)))
    else if tag == BSON_OBJECTID then (if |d| == 12 then Some(Field(tag, d)) else None)
    else if tag == BSON_JSCODE || tag == BSON_DBPOINTER || tag == BSON_SYMBOL || tag == BSON_CODEWS then Some(Field(tag, d))
    else if tag == BSON_DATE then (if |d| == 4 then Some(Field(tag, Le(FromLe(d) * 1000, 8))) else None)
    else if tag == BSON_TIMESTAMP then (if |d| == 8 then Some(Field(tag, d)) else None)
    else if tag == BSON_REGEX then
      (if d == [] then None else
       var z := LastZero(d[..|d| - 1]);
       if z < 0 || !Text(d[..z]) || !Text(d[z + 1..|d| - 1]) then None
       else Some(Field(tag, d[..z] + [0] + d[z + 1..|d| - 1] + [0])))
    else if tag == BSON_MINKEY || tag == BSON_MAXKEY || tag == BSON_NULL then Some(Field(tag, []))
    else if tag == BSON_INT64 then (if |d| == 8 then Some(Field(tag, d)) else None)
    else None
  }

  function EncString(s: bytes): Option<Field> {
    if Tagged(s) then EncTagged(s)
    else if Text(s) then Some(Field(BSON_STRING, Le(|s| + 1, 4) + s + [0]))
    else None
  }

  function Decimal(n: nat): (r: bytes)
    ensures r != []
  {
    if n < 10 then [48 + n] else Decimal(n / 10) + [48 + n % 10]
  }

  /** The pairs are those of a sequence. */
  predicate IsArray(es: seq<Entry>) { es != [] && forall i :: 0 <= i < |es| ==> es[i].key == Index(i + 1) }

  function EncValue(v: Value, depth: nat): Option<Field>
    decreases v
  {
    match v
    case Bool(b) => Some(Field(BSON_BOOLEAN, [if b then 1 else 0]))
    case Int(i) => Some(EncInt(i))
    case Real(bits) => Some(Field(BSON_REAL, Le(bits, 8)))
    case Str(s) => EncString(s)
    case Table(es) =>
      if depth + 1 > MAX_DEPTH then None else
      (match EncFields(es, if IsArray(es) then 0 else -1, depth + 1)
       case None => None
       case Some(body) => Some(Field(if IsArray(es) then BSON_ARRAY else BSON_DOCUMENT, Doc(body))))
    case Other => None
  }

  function Doc(body: bytes): bytes { Le(|body| + 5, 4) + body + [0] }

  /** Key of a pair in an array from its place `at`, or in a dictionary (`at` is -1). */
  function KeyOf(k: Key, at: int): Option<bytes> {
    if at >= 0 then Some(Decimal(at))
    else if k.Name? && Text(k.s) then Some(k.s)
    else None
  }

  function EncEntry(e: Entry, at: int, depth: nat): Option<bytes>
    decreases e
  {
    match KeyOf(e.key, at)
    case None => None
    case Some(key) =>
      match EncValue(e.value, depth)
      case None => None
      case Some(f) => Some([f.tag] + key + [0] + f.pay)
  }

  function Next(at: int): int { if at < 0 then at else at + 1 }

  function EncFields(es: seq<Entry>, at: int, depth: nat): Option<bytes>
    decreases es
  {
    if es == [] then Some([]) else
    match EncEntry(es[0], at, depth)
    case None => None
    case Some(a) =>
      match EncFields(es[1..], Next(at), depth)
      case None => None
      case Some(b) => Some(a + b)
  }

  /** `encode` of a table, always as a dictionary. */
  function Encode(es: seq<Entry>): Option<bytes> {
    match EncFields(es, -1, 0)
    case None => None
    case Some(body) => Some(Doc(body))
  }

  // ---- reading

  function Take(b: bytes, n: int): (r: Option<(bytes, bytes)>)
    ensures r.Some? ==> |r.value.1| <= |b| && r.value.0 + r.value.1 == b
  {
    if n < 0 || |b| < n then None else Some((b[..n], b[n..]))
  }

  function Int32(b: bytes): (r: Option<(int, bytes)>)
    ensures r.Some? ==> |r.value.1| + 4 == |b| && Is32(r.value.0)
  {
    Powers();
    match DecWord(b, 4)
    case None => None
    case Some((n, rest)) => if n < Power(4) then Some((Signed(n, 4), rest)) else None
  }

  function Int64(b: bytes): (r: Option<(int64, bytes)>)
    ensures r.Some? ==> |r.value.1| + 8 == |b|
  {
    Powers();
    match DecWord(b, 8)
    case None => None
    case Some((n, rest)) => if n < Power(8) then Some((Signed(n, 8), rest)) else None
  }

  /** Bytes before the first zero, and what follows it. */
  function CString(b: bytes): (r: Option<(bytes, bytes)>)
    ensures r.Some? ==> |r.value.0| + 1 + |r.value.1| == |b|
  {
    if b == [] then None
    else if b[0] == 0 then Some(([], b[1..]))
    else match CString(b[1..])
         case None => None
         case Some((s, rest)) => Some(([b[0]] + s, rest))
  }

  predicate Blank(c: byte) { c == 32 || 9 <= c <= 13 }

  predicate Digit(c: byte) { 48 <= c < 58 }

  function Digits(s: bytes, acc: nat): nat {
    if s == [] || !Digit(s[0]) then acc else Digits(s[1..], 10 * acc + (s[0] - 48))
  }

  /** `strtol` in base 10 before the limit of its type is applied. */
  function Number(s: bytes): int {
    if s == [] then 0
    else if Blank(s[0]) then Number(s[1..])
    else if s[0] == 45 then 0 - Digits(s[1..], 0)
    else if s[0] == 43 then Digits(s[1..], 0)
    else Digits(s, 0)
  }

  function Clamp(n: int): int {
    if n > 0x7fff_ffff_ffff_ffff then 0x7fff_ffff_ffff_ffff else if n < -0x8000_0000_0000_0000 then -0x8000_0000_0000_0000 else n
  }

  /** A C integer cut to 32 bits. */
  function Cut(n: int): (r: int)
    ensures Is32(r) && (Is32(n) ==> r == n)
  {
    (n + 0x8000_0000) % 0x1_0000_0000 - 0x8000_0000
  }

  function KeyBack(key: bytes, arr: bool): Key {
    if arr then Index(Cut(Clamp(Number(key)) + 1)) else Name(key)
  }

  /** Division that truncates toward zero. */
  function Quot(a: int, b: int): int
    requires b > 0
  {
    if a < 0 then -(-a / b) else a / b
  }

  function Made(tag: byte, pay: bytes): Value { Str([0, tag] + pay) }

  function DecRaw(tag: byte, b: bytes, more: int): (r: Option<(Value, bytes)>)
    ensures r.Some? ==> |r.value.1| <= |b|
  {
    match Int32(b)
    case None => None
    case Some((n, _)) =>
      match Take(b, n + more)
      case None => None
      case Some((raw, rest)) => if |raw| < 4 then None else Some((Made(tag, raw), rest))
  }

  function DecString(b: bytes): (r: Option<(Value, bytes)>)
    ensures r.Some? ==> |r.value.1| <= |b|
  {
    match Int32(b)
    case None => None
    case Some((n, r1)) =>
      if n <= 0 then None else
      match Take(r1, n)
      case None => None
      case Some((s, rest)) => Some((Str(s[..n - 1]), rest))
  }

  function DecBinary(b: bytes): (r: Option<(Value, bytes)>)
    ensures r.Some? ==> |r.value.1| <= |b|
  {
    match Int32(b)
    case None => None
    case Some((n, r1)) =>
      if n < 0 then None else
      match Take(r1, n + 1)
      case None => None
      case Some((s, rest)) => Some((Made(BSON_BINARY, s), rest))
  }

  function DecRegex(b: bytes): (r: Option<(Value, bytes)>)
    ensures r.Some? ==> |r.value.1| <= |b|
  {
    match CString(b)
    case None => None
    case Some((p, r1)) =>
      match CString(r1)
      case None => None
      case Some((o, rest)) => Some((Made(BSON_REGEX, p + [0] + o + [0]), rest))
  }

  function DecDate(b: bytes): (r: Option<(Value, bytes)>)
    ensures r.Some? ==> |r.value.1| <= |b|
  {
    match Int64(b)
    case None => None
    case Some((n, rest)) => Some((Made(BSON_DATE, Le(Quot(n, 1000) % 0x1_0000_0000, 4)), rest))
  }

  /** The value of a field that is no document. */
  function DecScalar(tag: byte, b: bytes): (r: Option<(Value, bytes)>)
    ensures r.Some? ==> |r.value.1| <= |b|
  {
    if tag == BSON_REAL then
      (match DecWord(b, 8) case None => None case Some((n, rest)) =>
         if n < 0x1_0000_0000_0000_0000 then Some((Real(n), rest)) else None)
    else if tag == BSON_BOOLEAN then (if b == [] then None else Some((Bool(b[0] != 0), b[1..])))
    else if tag == BSON_STRING then DecString(b)
    else if tag == BSON_BINARY then DecBinary(b)
    else if tag == BSON_OBJECTID then
      (match Take(b, 12) case None => None case Some((d, rest)) => Some((Made(tag, d), rest)))
    else if tag == BSON_DATE then DecDate(b)
    else if tag == BSON_MINKEY || tag == BSON_MAXKEY || tag == BSON_NULL then Some((Made(tag, []), b))
    else if tag == BSON_REGEX then DecRegex(b)
    else if tag == BSON_INT32 then
      (match Int32(b) case None => None case Some((n, rest)) => Some((Int(n), rest)))
    else if tag == BSON_TIMESTAMP then
      (match Take(b, 8) case None => None case Some((d, rest)) => Some((Made(tag, d), rest)))
    else if tag == BSON_INT64 then
      (match Int64(b) case None => None case Some((n, rest)) => Some((Int(n), rest)))
    else if tag == BSON_DBPOINTER then DecRaw(tag, b, 16)
    else if tag == BSON_JSCODE || tag == BSON_SYMBOL then DecRaw(tag, b, 4)
    else if tag == BSON_CODEWS then DecRaw(tag, b, 0)
    else None
  }

  function DecValue(tag: byte, b: bytes): (r: Option<(Value, bytes)>)
    ensures r.Some? ==> |r.value.1| <= |b|
    decreases |b|, 1
  {
    if tag == BSON_DOCUMENT || tag == BSON_ARRAY then DecDoc(b, tag == BSON_ARRAY) else DecScalar(tag, b)
  }

  /** `unpack_dict` */
  function DecDoc(b: bytes, arr: bool): (r: Option<(Value, bytes)>)
    ensures r.Some? ==> |r.value.1| <= |b|
    decreases |b|, 0
  {
    match Int32(b)
    case None => None
    case Some((n, r1)) =>
      match Take(r1, n - 5)
      case None => None
      case Some((body, r2)) =>
        if r2 == [] || r2[0] != 0 then None else
        match DecFields(body, arr)
        case None => None
        case Some(es) => Some((Table(es), r2[1..]))
  }

  function DecFields(b: bytes, arr: bool): Option<seq<Entry>>
    decreases |b|, 0
  {
    if b == [] then Some([]) else
    match CString(b[1..])
    case None => None
    case Some((key, r1)) =>
      match DecValue(b[0], r1)
      case None => None
      case Some((v, r2)) =>
        match DecFields(r2, arr)
        case None => None
        case Some(es) => Some([Entry(KeyBack(key, arr), v)] + es)
  }

  function Decode(b: bytes): Option<Value> {
    match DecDoc(b, false)
    case None => None
    case Some((v, _)) => Some(v)
  }

  // ---- what can be read back

  predicate NoZero(s: bytes) { forall i :: 0 <= i < |s| ==> s[i] != 0 }

  /** Length words inside a string of a raw type agree with its size. */
  predicate RawFits(d: bytes, more: int) { |d| >= 4 && Int32(d).Some? && Int32(d).value.0 + more == |d| }

  predicate SoundString(s: bytes) {
    Tagged(s) ==>
      var tag, d := s[1], s[2..];
      && (tag == BSON_MINKEY || tag == BSON_MAXKEY || tag == BSON_NULL ==> d == [])
      && (tag == BSON_REGEX ==> d != [] && d[|d| - 1] == 0 && LastZero(d[..|d| - 1]) >= 0 && NoZero(d[..LastZero(d[..|d| - 1])]))
      && tag != BSON_INT64 && (tag == BSON_BINARY ==> d != [])
      && (tag == BSON_DBPOINTER ==> RawFits(d, 16))
      && (tag == BSON_JSCODE || tag == BSON_SYMBOL ==> RawFits(d, 4))
      && (tag == BSON_CODEWS ==> RawFits(d, 0))
  }

  /** Keys without zero bytes, and tagged strings in the form that reading produces. */
  predicate Sound(v: Value)
    decreases v
  {
    match v
    case Str(s) => SoundString(s)
    case Table(es) => AllSound(es)
    case _ => true
  }

  predicate AllSound(es: seq<Entry>)
    decreases es
  {
    es == [] || (SoundEntry(es[0]) && AllSound(es[1..]))
  }

  predicate SoundEntry(e: Entry)
    decreases e
  {
    (e.key.Name? ==> NoZero(e.key.s)) && Sound(e.value)
  }
}
