/**
 * The format of `lua-seri` byte by byte: which bytes stand for a value. Packing writes such bytes, with
 * the shortest form of every integer, and all such bytes are unpacked to the value.
 */
module SeriSpec {
  import opened Words
  import opened LittleEndian
  import opened SeriFormat

  // ---- the format

  /** The low three bits of the first byte are 2, the others are the number of bytes that follow,
      but 6 for eight of them. */
  predicate IsNumber(b: bytes, i: int) {
    || (b == [0x02] && i == 0)
    || (|b| == 2 && b[0] == 0x0A && i == b[1])
    || (|b| == 3 && b[0] == 0x12 && i == ByteValue(b[1]) + 0x100 * ByteValue(b[2]))
    || (|b| == 5 && b[0] == 0x22 && IsInt32(b[1..], i))
    || (|b| == 9 && b[0] == 0x32 && IsInt64(b[1..], i))
  }

  /** Up to 31 bytes with their number in the first byte, or after a length of two or four bytes. */
  predicate IsString(b: bytes, s: bytes) {
    || (|s| < 32 && b == [4 + 8 * |s|] + s)
    || (|b| >= 3 && b[0] == 0x15 && ByteValue(b[1]) + 0x100 * ByteValue(b[2]) == |s| && b[3..] == s)
    || (|b| >= 5 && b[0] == 0x25 && Unsigned4(b[1..5]) == |s| && b[5..] == s)
  }

  /** The size of the array part of a table, up to 30 in the first byte. */
  predicate IsSize(b: bytes, n: nat) {
    n < 0x8000_0000 && if n < 31 then b == [6 + 8 * n] else b != [] && b[0] == 0xFE && IsNumber(b[1..], n)
  }

  predicate IsWord(b: bytes, first: byte, bits: nat) { |b| == 9 && b[0] == first && Unsigned8(b[1..]) == bits }

  ghost predicate IsValue(b: bytes, v: Value)
    decreases |b|, 0, 0
  {
    match v
    case Nil => b == [0x00]
    case Bool(t) => b == [if t then 0x09 else 0x01]
    case Int(i) => IsNumber(b, i)
    case Real(bits) => IsWord(b, 0x42, bits)
    case Pointer(a) => IsWord(b, 0x03, a)
    case Str(s) => IsString(b, s)
    case Table(arr, pairs) =>
      exists h, a, p :: IsTable(b, h, a, p) && IsSize(h, |arr|) && IsValues(a, arr) && IsPairs(p, pairs)
    case Other => false
  }

  /** A table ends with a nil in the place of a key. */
  predicate IsTable(b: bytes, h: bytes, a: bytes, p: bytes) { b == h + (a + (p + [0x00])) }

  predicate Splits(b: bytes, first: bytes, rest: bytes) { b == first + rest }

  /** One value after the other. */
  ghost predicate IsValues(b: bytes, vs: seq<Value>)
    decreases |b|, 1, |vs|
  {
    if vs == [] then b == []
    else exists first, rest :: Splits(b, first, rest) && IsValue(first, vs[0]) && IsValues(rest, vs[1..])
  }

  ghost predicate IsPairs(b: bytes, ps: seq<Pair>)
    decreases |b|, 2, |ps|
  {
    if ps == [] then b == []
    else
      exists pair, rest :: Splits(b, pair, rest) && IsPair(pair, ps[0]) && IsPairs(rest, ps[1..])
  }

  /** The key comes first; it is not nil. */
  ghost predicate IsPair(b: bytes, p: Pair)
    decreases |b|, 1, 0
  {
    !p.key.Nil? && exists key, value :: Splits(b, key, value) && IsValue(key, p.key) && IsValue(value, p.value)
  }

  // ---- reading

  lemma Word1(p: bytes)
    requires |p| == 1
    ensures FromLe(p) == ByteValue(p[0])
  {
    assert FromLe(p[1..]) == 0;
  }

  lemma Word2(p: bytes)
    requires |p| == 2
    ensures FromLe(p) == ByteValue(p[0]) + 0x100 * ByteValue(p[1])
  {
    assert FromLe(p[1..][1..]) == 0;
    assert FromLe(p[1..]) == p[1];
  }

  lemma TakeWord(p: bytes, rest: bytes)
    ensures DecWord(p + rest, |p|) == Some((FromLe(p), rest))
  {
    assert (p + rest)[..|p|] == p && (p + rest)[|p|..] == rest;
  }

  lemma ReadNumber(b: bytes, i: int, rest: bytes)
    requires IsNumber(b, i)
    ensures b != [] && b[0] % 8 == 2 && b[0] / 8 < 8 && -0x8000_0000_0000_0000 <= i < 0x8000_0000_0000_0000
    ensures DecInt(b[1..] + rest, b[0] / 8) == Some((i, rest))
  {
    hide FromLe, DecWord;
    Powers();
    var p := b[1..];
    TakeWord(p, rest);
    if |b| == 1 {
      assert p + rest == rest;
    } else if |b| == 2 {
      Word1(p);
    } else if |b| == 3 {
      Word2(p);
    } else if |b| == 5 {
      FromLe4(p);
    } else {
      FromLe8(p);
      FromLe4(p[..4]);
      FromLe4(p[4..]);
      assert p[4..][3] == p[7];
    }
  }

  lemma ReadString(b: bytes, s: bytes, rest: bytes)
    requires IsString(b, s)
    ensures DecOne(b + rest) == Some((Str(s), rest))
  {
    hide FromLe, DecWord, DecInt, DecArray, DecPairs, DecSize, DecBuffer;
    var e := b + rest;
    BufferBack(s, rest);
    if |s| < 32 && b == [4 + 8 * |s|] + s {
      assert e[1..] == s + rest;
    } else if b[0] == 0x15 {
      Word2(b[1..3]);
      TakeWord(b[1..3], s + rest);
      assert e[1..] == b[1..3] + (s + rest);
    } else {
      FromLe4(b[1..5]);
      TakeWord(b[1..5], s + rest);
      assert e[1..] == b[1..5] + (s + rest);
    }
  }

  lemma ReadSize(b: bytes, n: nat, rest: bytes)
    requires IsSize(b, n)
    ensures b != [] && b[0] % 8 == 6 && DecSize(b[1..] + rest, b[0] / 8) == Some((n, rest))
  {
    hide DecInt, IsNumber;
    if n < 31 {
      assert b[1..] + rest == rest;
    } else {
      ReadNumber(b[1..], n, rest);
      assert (b[1..] + rest)[1..] == b[1..][1..] + rest;
    }
  }

  lemma ReadWord64(b: bytes, first: byte, bits: word64, rest: bytes)
    requires IsWord(b, first, bits)
    ensures DecWord(b[1..] + rest, 8) == Some((bits, rest))
  {
    FromLe8(b[1..]);
    TakeWord(b[1..], rest);
  }

  /** Bytes that stand for a value are read as it, in front of anything. */
  lemma ReadValue(b: bytes, v: Value, rest: bytes)
    requires IsValue(b, v)
    ensures DecOne(b + rest) == Some((v, rest))
    decreases |b|, 0, 0
  {
    hide IsNumber, IsString, IsWord, IsSize, DecInt, DecWord, DecArray, DecPairs, DecSize, IsValues, IsPairs;
    var e := b + rest;
    match v
    case Nil => assert e[1..] == rest;
    case Bool(_) => assert e[1..] == rest;
    case Int(i) =>
      ReadNumber(b, i, rest);
      assert e[1..] == b[1..] + rest;
    case Real(bits) =>
      ReadWord64(b, 0x42, bits, rest);
      WordFirst(b, 0x42, bits);
      assert e[1..] == b[1..] + rest;
    case Pointer(a) =>
      ReadWord64(b, 0x03, a, rest);
      WordFirst(b, 0x03, a);
      assert e[1..] == b[1..] + rest;
    case Str(s) => ReadString(b, s, rest);
    case Table(arr, pairs) =>
      var h, a, p :| IsTable(b, h, a, p) && IsSize(h, |arr|) && IsValues(a, arr) && IsPairs(p, pairs);
      ReadSize(h, |arr|, []);
      ReadTable(b, h, a, p, arr, pairs, rest);
    case Other =>
  }

  lemma WordFirst(b: bytes, first: byte, bits: nat)
    requires IsWord(b, first, bits)
    ensures b != [] && b[0] == first
  {
  }

  lemma ReadTable(b: bytes, h: bytes, a: bytes, p: bytes, arr: seq<Value>, pairs: seq<Pair>, rest: bytes)
    requires IsTable(b, h, a, p) && IsSize(h, |arr|) && IsValues(a, arr) && IsPairs(p, pairs)
    ensures DecOne(b + rest) == Some((Table(arr, pairs), rest))
    decreases |a| + |p| + 1, 3, 0
  {
    hide IsSize, DecArray, DecPairs, DecSize, IsValues, IsPairs;
    var tail := p + ([0x00] + rest);
    var e := b + rest;
    ReadSize(h, |arr|, a + tail);
    assert e == h + (a + tail) && e[1..] == h[1..] + (a + tail);
    ReadValues(a, arr, tail);
    ReadPairs(p, pairs, rest);
  }

  lemma {:induction false} ReadValues(b: bytes, vs: seq<Value>, rest: bytes)
    requires IsValues(b, vs)
    ensures DecArray(b + rest, |vs|) == Some((vs, rest))
    decreases |b|, 1, |vs|
  {
    hide IsValue, DecOne;
    if vs == [] {
      assert b + rest == rest;
    } else {
      var first, more :| Splits(b, first, more) && IsValue(first, vs[0]) && IsValues(more, vs[1..]);
      assert Splits(b, first, more);
      ReadValue(first, vs[0], more + rest);
      ReadValues(more, vs[1..], rest);
      assert b + rest == first + (more + rest);
      assert [vs[0]] + vs[1..] == vs;
    }
  }

  lemma {:induction false} ReadPairs(b: bytes, ps: seq<Pair>, rest: bytes)
    requires IsPairs(b, ps)
    ensures DecPairs(b + ([0x00] + rest)) == Some((ps, rest))
    decreases |b|, 2, |ps|
  {
    hide IsValue, DecOne;
    var end := [0x00] + rest;
    if ps == [] {
      assert b + end == end;
      NilBack(rest);
    } else {
      var pair, more :| Splits(b, pair, more) && IsPair(pair, ps[0]) && IsPairs(more, ps[1..]);
      assert Splits(b, pair, more);
      var key, value :| Splits(pair, key, value) && IsValue(key, ps[0].key) && IsValue(value, ps[0].value);
      assert Splits(pair, key, value);
      ReadValue(key, ps[0].key, value + (more + end));
      ReadValue(value, ps[0].value, more + end);
      ReadPairs(more, ps[1..], rest);
      assert b + end == key + (value + (more + end));
      assert [ps[0]] + ps[1..] == ps;
    }
  }

  /** A buffer that holds a list of values is unpacked to this list. */
  lemma {:induction false} ReadList(b: bytes, vs: seq<Value>)
    requires IsValues(b, vs)
    ensures DecList(b) == Some(vs)
    decreases |vs|
  {
    hide IsValue, DecOne;
    if vs != [] {
      var first, more :| Splits(b, first, more) && IsValue(first, vs[0]) && IsValues(more, vs[1..]);
      assert Splits(b, first, more);
      ReadValue(first, vs[0], more);
      ReadList(more, vs[1..]);
      SomeByte(first, vs[0]);
      assert [vs[0]] + vs[1..] == vs;
    }
  }

  lemma SomeByte(b: bytes, v: Value)
    requires IsValue(b, v)
    ensures b != []
  {
    hide IsValues, IsPairs, IsNumber;
    match v
    case Int(i) => ReadNumber(b, i, []);
    case Table(arr, pairs) =>
      var h, a, p :| IsTable(b, h, a, p) && IsSize(h, |arr|) && IsValues(a, arr) && IsPairs(p, pairs);
    case _ =>
  }

  // ---- writing

  lemma WordOf(n: nat, k: nat)
    requires n < Power(k)
    ensures |Le(n, k)| == k && FromLe(Le(n, k)) == n
  {
    LeBack(n, k);
  }

  lemma WrittenNumber(i: int64)
    ensures IsNumber(EncInt(i), i)
  {
    hide FromLe, Le;
    Powers();
    var b := EncInt(i);
    var p := b[1..];
    if i == 0 {
    } else if i < -0x8000_0000 || i >= 0x8000_0000 {
      assert p == Le(Unsigned(i, 8), 8);
      WordOf(Unsigned(i, 8), 8);
      FromLe8(p);
      FromLe4(p[..4]);
      FromLe4(p[4..]);
      assert p[4..][3] == p[7];
    } else if i < 0 || i >= 0x1_0000 {
      assert p == Le(Unsigned(i, 4), 4);
      WordOf(Unsigned(i, 4), 4);
      FromLe4(p);
    } else if i < 0x100 {
      assert p == Le(i, 1);
      WordOf(i, 1);
      Word1(p);
    } else {
      assert p == Le(i, 2);
      WordOf(i, 2);
      Word2(p);
    }
  }

  /** No other form of an integer is shorter. */
  lemma WrittenShortest(i: int64, b: bytes)
    requires IsNumber(b, i)
    ensures |EncInt(i)| <= |b|
  {
    hide Le, FromLe;
    Powers();
  }

  lemma WrittenString(s: bytes)
    requires |s| < 0x8000_0000
    ensures IsString(EncString(s), s)
    ensures forall b :: IsString(b, s) ==> |EncString(s)| <= |b|
  {
    hide FromLe, Le;
    Powers();
    var b := EncString(s);
    if |s| >= 0x1_0000 {
      WordOf(|s|, 4);
      FromLe4(Le(|s|, 4));
      assert b[1..5] == Le(|s|, 4) && b[5..] == s;
    } else if |s| >= 32 {
      WordOf(|s|, 2);
      Word2(Le(|s|, 2));
      assert b[1..3] == Le(|s|, 2) && b[1] == Le(|s|, 2)[0] && b[2] == Le(|s|, 2)[1] && b[3..] == s;
    }
  }

  lemma WrittenSize(n: nat)
    requires n < 0x8000_0000
    ensures IsSize(EncHeader(n), n)
  {
    hide EncInt, IsNumber;
    if n >= 31 {
      WrittenNumber(n);
      assert EncHeader(n)[1..] == EncInt(n);
    }
  }

  lemma WrittenWord(first: byte, bits: word64)
    ensures IsWord([first] + Le(bits, 8), first, bits)
  {
    hide Le, FromLe;
    Powers();
    WordOf(bits, 8);
    FromLe8(Le(bits, 8));
    assert ([first] + Le(bits, 8))[1..] == Le(bits, 8);
  }

  lemma {:induction false} WrittenValue(v: Value, depth: nat)
    requires Packable(v, depth)
    ensures IsValue(Enc(v, depth), v)
    decreases v, 1
  {
    hide EncInt, EncString, EncHeader, EncAll, EncPairs, IsNumber, IsString, IsWord, IsSize, Le, IsValues, IsPairs;
    match v
    case Int(i) => WrittenNumber(i);
    case Real(bits) => WrittenWord(0x42, bits);
    case Pointer(a) => WrittenWord(0x03, a);
    case Str(s) => WrittenString(s);
    case Table(arr, pairs) =>
      var h, a, p := EncHeader(|arr|), EncAll(arr, depth + 1), EncPairs(pairs, depth + 1);
      WrittenSize(|arr|);
      WrittenValues(arr, depth + 1);
      WrittenPairs(pairs, depth + 1);
      assert Enc(v, depth) == h + (a + (p + [0x00]));
      assert IsTable(Enc(v, depth), h, a, p);
    case _ =>
  }

  lemma {:induction false} WrittenValues(vs: seq<Value>, depth: nat)
    requires AllPackable(vs, depth)
    ensures IsValues(EncAll(vs, depth), vs)
    decreases vs, 0
  {
    hide Enc, IsValue, Packable;
    if vs != [] {
      WrittenValue(vs[0], depth);
      WrittenValues(vs[1..], depth);
      assert Splits(EncAll(vs, depth), Enc(vs[0], depth), EncAll(vs[1..], depth));
    }
  }

  lemma {:induction false} WrittenPairs(ps: seq<Pair>, depth: nat)
    requires PairsPackable(ps, depth)
    ensures IsPairs(EncPairs(ps, depth), ps)
    decreases ps, 0
  {
    hide EncPair, IsPair, PairPackable;
    if ps != [] {
      WrittenPair(ps[0], depth);
      WrittenPairs(ps[1..], depth);
      assert Splits(EncPairs(ps, depth), EncPair(ps[0], depth), EncPairs(ps[1..], depth));
    }
  }

  lemma WrittenPair(p: Pair, depth: nat)
    requires PairPackable(p, depth)
    ensures IsPair(EncPair(p, depth), p)
    decreases p, 0
  {
    hide Enc, IsValue, Packable;
    WrittenValue(p.key, depth);
    WrittenValue(p.value, depth);
    assert Splits(EncPair(p, depth), Enc(p.key, depth), Enc(p.value, depth));
  }

  // ---- what is written at all

  /** At most `room` tables around each other's values, sizes that fit the C type int, and no type that
      cannot be written. */
  predicate Fits(v: Value, room: int)
    decreases v
  {
    && room >= 0 && !v.Other?
    && (v.Str? ==> |v.s| < 0x8000_0000)
    && (v.Table? ==> |v.arr| < 0x8000_0000 && AllFit(v.arr, room - 1) && PairsFit(v.pairs, room - 1))
  }

  predicate AllFit(vs: seq<Value>, room: int)
    decreases vs
  {
    vs == [] || (Fits(vs[0], room) && AllFit(vs[1..], room))
  }

  predicate PairsFit(ps: seq<Pair>, room: int)
    decreases ps
  {
    ps == [] || (PairFits(ps[0], room) && PairsFit(ps[1..], room))
  }

  predicate PairFits(p: Pair, room: int)
    decreases p
  {
    !p.key.Nil? && Fits(p.key, room) && Fits(p.value, room)
  }

  lemma {:induction false} FitsIff(v: Value, depth: nat)
    ensures Packable(v, depth) <==> Fits(v, 32 - depth)
    decreases v, 1
  {
    hide AllPackable, PairsPackable, AllFit, PairsFit;
    if v.Table? {
      AllFitIff(v.arr, depth + 1);
      PairsFitIff(v.pairs, depth + 1);
    }
  }

  lemma {:induction false} AllFitIff(vs: seq<Value>, depth: nat)
    ensures AllPackable(vs, depth) <==> AllFit(vs, 32 - depth)
    decreases vs, 0
  {
    hide Packable, Fits;
    if vs != [] {
      FitsIff(vs[0], depth);
      AllFitIff(vs[1..], depth);
    }
  }

  lemma {:induction false} PairsFitIff(ps: seq<Pair>, depth: nat)
    ensures PairsPackable(ps, depth) <==> PairsFit(ps, 32 - depth)
    decreases ps, 0
  {
    hide PairPackable, PairFits;
    if ps != [] {
      PairFitsIff(ps[0], depth);
      PairsFitIff(ps[1..], depth);
    }
  }

  lemma PairFitsIff(p: Pair, depth: nat)
    ensures PairPackable(p, depth) <==> PairFits(p, 32 - depth)
    decreases p, 0
  {
    hide Packable, Fits;
    FitsIff(p.key, depth);
    FitsIff(p.value, depth);
  }
}
