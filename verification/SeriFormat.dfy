/**
 * The message format of `lua-seri`: how values are written and how a stream is read back.
 * Machine words are little-endian, as on the hosts the library copies them from.
 */
module SeriFormat {
  import opened Words

  type int64 = x: int | -0x8000_0000_0000_0000 <= x < 0x8000_0000_0000_0000
  type word64 = x: int | 0 <= x < 0x1_0000_0000_0000_0000

  const MAX_COOKIE := 32
  const MAX_DEPTH := 32

  const TYPE_NIL := 0
  const TYPE_BOOLEAN := 1
  const TYPE_NUMBER := 2
  const TYPE_USERDATA := 3
  const TYPE_SHORT_STRING := 4
  const TYPE_LONG_STRING := 5
  const TYPE_TABLE := 6

  /** A table is what `lua_rawgeti` gives for 1 to its length, and the other pairs in the order of
      `lua_next` (or of its `__pairs`). Reals and pointers are bit patterns. */
  datatype Value =
    | Nil
    | Bool(b: bool)
    | Int(i: int64)
    | Real(bits: word64)
    | Pointer(address: word64)
    | Str(s: seq<byte>)
    | Table(arr: seq<Value>, pairs: seq<Pair>)
    | Other

  datatype Pair = Pair(key: Value, value: Value)

  // ---- writing

  function Head(t: nat, cookie: nat): byte
    requires t < 8 && cookie < 32
  {
    t + 8 * cookie
  }

  function EncInt(v: int64): (r: seq<byte>)
    ensures r != []
  {
    Powers();
    if v == 0 then [Head(TYPE_NUMBER, 0)]
    else if v < -0x8000_0000 || v >= 0x8000_0000 then [Head(TYPE_NUMBER, 6)] + Le(Unsigned(v, 8), 8)
    else if v < 0 then [Head(TYPE_NUMBER, 4)] + Le(Unsigned(v, 4), 4)
    else if v < 0x100 then [Head(TYPE_NUMBER, 1)] + Le(v, 1)
    else if v < 0x1_0000 then [Head(TYPE_NUMBER, 2)] + Le(v, 2)
    else [Head(TYPE_NUMBER, 4)] + Le(v, 4)
  }

  function EncString(s: seq<byte>): seq<byte> {
    if |s| < MAX_COOKIE then [Head(TYPE_SHORT_STRING, |s|)] + s
    else if |s| < 0x1_0000 then [Head(TYPE_LONG_STRING, 2)] + Le(|s|, 2) + s
    else [Head(TYPE_LONG_STRING, 4)] + Le(|s|, 4) + s
  }

  function EncHeader(n: nat): seq<byte>
    requires n < 0x8000_0000
  {
    if n >= MAX_COOKIE - 1 then [Head(TYPE_TABLE, MAX_COOKIE - 1)] + EncInt(n) else [Head(TYPE_TABLE, n)]
  }

  /** Values whose lengths fit the C type int, nested no deeper than the limit, of types that can be written. */
  predicate Packable(v: Value, depth: nat)
    decreases v
  {
    && depth <= MAX_DEPTH
    && match v
       case Other => false
       case Str(s) => |s| < 0x8000_0000
       case Table(arr, pairs) => |arr| < 0x8000_0000 && AllPackable(arr, depth + 1) && PairsPackable(pairs, depth + 1)
       case _ => true
  }

  predicate AllPackable(vs: seq<Value>, depth: nat)
    decreases vs
  {
    vs == [] || (Packable(vs[0], depth) && AllPackable(vs[1..], depth))
  }

  /** Keys of a table are never nil. */
  predicate PairsPackable(ps: seq<Pair>, depth: nat)
    decreases ps
  {
    ps == [] || (PairPackable(ps[0], depth) && PairsPackable(ps[1..], depth))
  }

  predicate PairPackable(p: Pair, depth: nat)
    decreases p
  {
    !p.key.Nil? && Packable(p.key, depth) && Packable(p.value, depth)
  }

  function Enc(v: Value, depth: nat): seq<byte>
    requires Packable(v, depth)
    decreases v
  {
    match v
    case Nil => [Head(TYPE_NIL, 0)]
    case Bool(b) => [Head(TYPE_BOOLEAN, if b then 1 else 0)]
    case Int(i) => EncInt(i)
    case Real(bits) => [Head(TYPE_NUMBER, 8)] + Le(bits, 8)
    case Pointer(a) => [Head(TYPE_USERDATA, 0)] + Le(a, 8)
    case Str(s) => EncString(s)
    case Table(arr, pairs) =>
      EncHeader(|arr|) + EncAll(arr, depth + 1) + EncPairs(pairs, depth + 1) + [Head(TYPE_NIL, 0)]
  }

  function EncAll(vs: seq<Value>, depth: nat): seq<byte>
    requires AllPackable(vs, depth)
    decreases vs
  {
    if vs == [] then [] else Enc(vs[0], depth) + EncAll(vs[1..], depth)
  }

  function EncPairs(ps: seq<Pair>, depth: nat): seq<byte>
    requires PairsPackable(ps, depth)
    decreases ps
  {
    if ps == [] then [] else EncPair(ps[0], depth) + EncPairs(ps[1..], depth)
  }

  function EncPair(p: Pair, depth: nat): seq<byte>
    requires PairPackable(p, depth)
    decreases p
  {
    Enc(p.key, depth) + Enc(p.value, depth)
  }

  // ---- reading: the value and what is left, or None for an invalid stream

  /** `rb_read` */
  function Read(b: seq<byte>, n: nat): Option<(seq<byte>, seq<byte>)> {
    if |b| < n then None else Some((b[..n], b[n..]))
  }

  function DecInt(b: seq<byte>, cookie: nat): (r: Option<(int, seq<byte>)>)
    ensures r.Some? ==> |r.value.1| <= |b|
  {
    if cookie == 0 then Some((0, b))
    else if cookie == 1 || cookie == 2 then
      (match DecWord(b, cookie) case None => None case Some((n, rest)) => Some((n, rest)))
    else if cookie == 4 then
      (match DecWord(b, 4) case None => None case Some((n, rest)) => Some((Signed(n, 4), rest)))
    else if cookie == 6 then
      (match DecWord(b, 8) case None => None case Some((n, rest)) => Some((Signed(n, 8), rest)))
    else None
  }

  function DecBuffer(b: seq<byte>, n: nat): (r: Option<(Value, seq<byte>)>)
    ensures r.Some? ==> |r.value.1| <= |b|
  {
    if |b| < n then None else Some((Str(b[..n]), b[n..]))
  }

  function DecScalar(b: seq<byte>, t: nat, cookie: nat): (r: Option<(Value, seq<byte>)>)
    ensures r.Some? ==> |r.value.1| <= |b|
  {
    if t == TYPE_NIL then Some((Nil, b))
    else if t == TYPE_BOOLEAN then Some((Bool(cookie != 0), b))
    else if t == TYPE_NUMBER && cookie == 8 then
      (match DecWord(b, 8) case None => None case Some((n, rest)) =>
         if n < 0x1_0000_0000_0000_0000 then Some((Real(n), rest)) else None)
    else if t == TYPE_NUMBER then
      (match DecInt(b, cookie) case None => None case Some((i, rest)) =>
         if -0x8000_0000_0000_0000 <= i < 0x8000_0000_0000_0000 then Some((Int(i), rest)) else None)
    else if t == TYPE_USERDATA then
      (match DecWord(b, 8) case None => None case Some((n, rest)) =>
         if n < 0x1_0000_0000_0000_0000 then Some((Pointer(n), rest)) else None)
    else if t == TYPE_SHORT_STRING then DecBuffer(b, cookie)
    else if t == TYPE_LONG_STRING && (cookie == 2 || cookie == 4) then
      (match DecWord(b, cookie) case None => None case Some((n, rest)) => DecBuffer(rest, n))
    else None
  }

  /** The size of the array part of a table. */
  function DecSize(b: seq<byte>, cookie: nat): (r: Option<(int, seq<byte>)>)
    ensures r.Some? ==> |r.value.1| <= |b|
  {
    if cookie != MAX_COOKIE - 1 then Some((cookie, b))
    else if b == [] || b[0] % 8 != TYPE_NUMBER || b[0] / 8 == 8 then None
    else
      match DecInt(b[1..], b[0] / 8)
      case None => None
      case Some((n, rest)) => Some((Cut(n), rest))
  }

  /** A 64-bit integer assigned to the C type int. */
  function Cut(n: int): int { (n + 0x8000_0000) % 0x1_0000_0000 - 0x8000_0000 }

  function DecOne(b: seq<byte>): (r: Option<(Value, seq<byte>)>)
    ensures r.Some? ==> |r.value.1| < |b|
    decreases |b|, 0, 0
  {
    if b == [] then None else DecValue(b[1..], b[0] % 8, b[0] / 8)
  }

  /** `push_value`, after the type byte. */
  function DecValue(b: seq<byte>, t: nat, cookie: nat): (r: Option<(Value, seq<byte>)>)
    ensures r.Some? ==> |r.value.1| <= |b|
    decreases |b|, 2, 0
  {
    if t != TYPE_TABLE then DecScalar(b, t, cookie) else
    match DecSize(b, cookie)
    case None => None
    case Some((n, b1)) =>
      match DecArray(b1, if n < 0 then 0 else n)
      case None => None
      case Some((arr, b2)) =>
        match DecPairs(b2)
        case None => None
        case Some((pairs, rest)) => Some((Table(arr, pairs), rest))
  }

  function DecArray(b: seq<byte>, n: nat): (r: Option<(seq<Value>, seq<byte>)>)
    ensures r.Some? ==> |r.value.1| <= |b|
    decreases |b|, 1, n
  {
    if n == 0 then Some(([], b)) else
    match DecOne(b)
    case None => None
    case Some((v, b1)) =>
      match DecArray(b1, n - 1)
      case None => None
      case Some((vs, rest)) => Some(([v] + vs, rest))
  }

  function DecPairs(b: seq<byte>): (r: Option<(seq<Pair>, seq<byte>)>)
    ensures r.Some? ==> |r.value.1| <= |b|
    decreases |b|, 1, 0
  {
    match DecOne(b)
    case None => None
    case Some((k, b1)) =>
      if k.Nil? then Some(([], b1)) else
      match DecOne(b1)
      case None => None
      case Some((v, b2)) =>
        match DecPairs(b2)
        case None => None
        case Some((ps, rest)) => Some(([Pair(k, v)] + ps, rest))
  }

  /** The loop of `luaseri_unpack`. */
  function DecList(b: seq<byte>): Option<seq<Value>>
    decreases |b|
  {
    if b == [] then Some([]) else
    match DecOne(b)
    case None => None
    case Some((v, rest)) =>
      match DecList(rest)
      case None => None
      case Some(vs) => Some([v] + vs)
  }

  // ---- reading undoes writing

  /** An integer read back, with its type byte split off. */
  lemma IntBack(v: int64, rest: seq<byte>)
    ensures var e := EncInt(v) + rest;
      && e[0] % 8 == TYPE_NUMBER && e[0] / 8 < 8
      && DecInt(e[1..], e[0] / 8) == Some((v, rest))
  {
    hide Le, FromLe, Power, DecWord;
    Powers();
    var e := EncInt(v) + rest;
    var body := EncInt(v)[1..];
    assert e[1..] == body + rest;
    if v == 0 {
      assert body + rest == rest;
    } else if v < -0x8000_0000 || v >= 0x8000_0000 {
      assert body == Le(Unsigned(v, 8), 8);
      WordBack(Unsigned(v, 8), 8, rest);
    } else if v < 0 {
      assert body == Le(Unsigned(v, 4), 4);
      WordBack(Unsigned(v, 4), 4, rest);
    } else if v < 0x100 {
      assert body == Le(v, 1);
      WordBack(v, 1, rest);
    } else if v < 0x1_0000 {
      assert body == Le(v, 2);
      WordBack(v, 2, rest);
    } else {
      assert body == Le(v, 4);
      WordBack(v, 4, rest);
    }
  }

  lemma BufferBack(s: seq<byte>, rest: seq<byte>)
    ensures DecBuffer(s + rest, |s|) == Some((Str(s), rest))
  {
    assert (s + rest)[..|s|] == s && (s + rest)[|s|..] == rest;
  }

  lemma ShortBack(s: seq<byte>, rest: seq<byte>)
    requires |s| < MAX_COOKIE
    ensures DecOne([Head(TYPE_SHORT_STRING, |s|)] + (s + rest)) == Some((Str(s), rest))
  {
    hide DecWord, DecInt, DecBuffer, DecArray, DecPairs, DecSize;
    BufferBack(s, rest);
    assert ([Head(TYPE_SHORT_STRING, |s|)] + (s + rest))[1..] == s + rest;
  }

  lemma LongBack(s: seq<byte>, k: nat, rest: seq<byte>)
    requires (k == 2 || k == 4) && |s| < Power(k)
    ensures DecOne([Head(TYPE_LONG_STRING, k)] + (Le(|s|, k) + (s + rest))) == Some((Str(s), rest))
  {
    hide Le, Power, DecWord, DecInt, DecBuffer, DecArray, DecPairs, DecSize;
    var body := Le(|s|, k) + (s + rest);
    BufferBack(s, rest);
    WordBack(|s|, k, s + rest);
    assert ([Head(TYPE_LONG_STRING, k)] + body)[1..] == body;
  }

  lemma Regroup(a: seq<byte>, b: seq<byte>, c: seq<byte>, d: seq<byte>)
    ensures a + b + c + d == a + (b + (c + d))
    ensures b == [] ==> a + c + d == a + (c + d)
  {
  }

  lemma StringBack(s: seq<byte>, rest: seq<byte>)
    requires |s| < 0x8000_0000
    ensures DecOne(EncString(s) + rest) == Some((Str(s), rest))
  {
    hide Le, Power, DecOne;
    Powers();
    if |s| < MAX_COOKIE {
      ShortBack(s, rest);
      Regroup([Head(TYPE_SHORT_STRING, |s|)], [], s, rest);
    } else {
      var k := if |s| < 0x1_0000 then 2 else 4;
      LongBack(s, k, rest);
      Regroup([Head(TYPE_LONG_STRING, k)], Le(|s|, k), s, rest);
    }
  }

  lemma NilBack(rest: seq<byte>)
    ensures DecOne([Head(TYPE_NIL, 0)] + rest) == Some((Nil, rest))
  {
    assert ([Head(TYPE_NIL, 0)] + rest)[1..] == rest;
  }

  lemma SizeBack(n: nat, rest: seq<byte>)
    requires n < 0x8000_0000
    ensures var e := EncHeader(n) + rest; e[0] % 8 == TYPE_TABLE && DecSize(e[1..], e[0] / 8) == Some((n, rest))
  {
    hide EncInt, DecInt;
    var e := EncHeader(n) + rest;
    if n >= MAX_COOKIE - 1 {
      IntBack(n, rest);
      assert e[1..] == EncInt(n) + rest;
    } else {
      assert e[1..] == rest;
    }
  }

  /** Unpacking one packed value gives it back and leaves the rest of the stream. */
  lemma {:induction false} OneBack(v: Value, depth: nat, rest: seq<byte>)
    requires Packable(v, depth)
    ensures DecOne(Enc(v, depth) + rest) == Some((v, rest))
    decreases v, 1
  {
    hide EncInt, DecInt, EncString, EncHeader, Le, FromLe, Power, DecWord, DecArray, DecPairs, EncAll, EncPairs, DecSize;
    Powers();
    var e := Enc(v, depth) + rest;
    match v
    case Nil => assert e[1..] == rest;
    case Bool(b) => assert e[1..] == rest;
    case Int(i) =>
      IntBack(i, rest);
      assert e[0] / 8 != 8;
    case Real(bits) =>
      assert e[1..] == Le(bits, 8) + rest;
      WordBack(bits, 8, rest);
    case Pointer(a) =>
      assert e[1..] == Le(a, 8) + rest;
      WordBack(a, 8, rest);
    case Str(s) => StringBack(s, rest);
    case Table(_, _) => TableBack(v, depth, rest);
  }

  lemma {:induction false} TableBack(v: Value, depth: nat, rest: seq<byte>)
    requires v.Table? && Packable(v, depth)
    ensures DecOne(Enc(v, depth) + rest) == Some((v, rest))
    decreases v, 0
  {
    hide EncHeader, DecSize, DecArray, DecPairs, EncAll, EncPairs;
    var Table(arr, pairs) := v;
    var h, a, p := EncHeader(|arr|), EncAll(arr, depth + 1), EncPairs(pairs, depth + 1);
    var tail := p + ([Head(TYPE_NIL, 0)] + rest);
    var e := Enc(v, depth) + rest;
    assert e == h + (a + tail);
    SizeBack(|arr|, a + tail);
    ArrayBack(arr, depth + 1, tail);
    PairsBack(pairs, depth + 1, rest);
  }

  lemma {:induction false} ArrayBack(vs: seq<Value>, depth: nat, rest: seq<byte>)
    requires AllPackable(vs, depth)
    ensures DecArray(EncAll(vs, depth) + rest, |vs|) == Some((vs, rest))
    decreases vs
  {
    hide Enc, DecOne;
    if vs == [] {
      assert EncAll(vs, depth) + rest == rest;
    } else {
      var tail := EncAll(vs[1..], depth) + rest;
      assert EncAll(vs, depth) + rest == Enc(vs[0], depth) + tail;
      OneBack(vs[0], depth, tail);
      ArrayBack(vs[1..], depth, rest);
      assert [vs[0]] + vs[1..] == vs;
    }
  }

  lemma {:induction false} PairBack(p: Pair, depth: nat, rest: seq<byte>)
    requires PairPackable(p, depth)
    ensures DecOne(EncPair(p, depth) + rest) == Some((p.key, Enc(p.value, depth) + rest))
    ensures DecOne(Enc(p.value, depth) + rest) == Some((p.value, rest))
    decreases p
  {
    hide Enc, DecOne;
    assert EncPair(p, depth) + rest == Enc(p.key, depth) + (Enc(p.value, depth) + rest);
    OneBack(p.key, depth, Enc(p.value, depth) + rest);
    OneBack(p.value, depth, rest);
  }

  lemma {:induction false} PairsBack(ps: seq<Pair>, depth: nat, rest: seq<byte>)
    requires PairsPackable(ps, depth)
    ensures DecPairs(EncPairs(ps, depth) + ([Head(TYPE_NIL, 0)] + rest)) == Some((ps, rest))
    decreases ps
  {
    hide Enc, EncPair;
    var end := [Head(TYPE_NIL, 0)] + rest;
    if ps == [] {
      assert EncPairs(ps, depth) + end == end;
      NilBack(rest);
    } else {
      var tail := EncPairs(ps[1..], depth) + end;
      assert EncPairs(ps, depth) + end == EncPair(ps[0], depth) + tail;
      PairBack(ps[0], depth, tail);
      PairsBack(ps[1..], depth, rest);
      assert [ps[0]] + ps[1..] == ps;
    }
  }

  /** Unpacking what was packed gives back the list of values. */
  lemma {:induction false} ListBack(vs: seq<Value>)
    requires AllPackable(vs, 0)
    ensures DecList(EncAll(vs, 0)) == Some(vs)
  {
    hide Enc, DecOne;
    if vs != [] {
      OneBack(vs[0], 0, EncAll(vs[1..], 0));
      ListBack(vs[1..]);
      assert [vs[0]] + vs[1..] == vs;
    }
  }
}
