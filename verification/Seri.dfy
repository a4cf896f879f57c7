/**
 * The serializer at work: a chain of 128-byte blocks to write into, and a cursor to read from.
 * Both are proved against the format of `SeriFormat`.
 */
module Seri {
  import opened SeriFormat
  import opened SeriSpec
  import opened Words

  const BLOCK_SIZE := 128

  /** Contents of full blocks. */
  ghost function Flat(chain: seq<array<byte>>): (r: seq<byte>)
    reads chain
    ensures (forall b :: b in chain ==> b.Length == BLOCK_SIZE) ==> |r| == BLOCK_SIZE * |chain|
  {
    if chain == [] then [] else Flat(chain[..|chain| - 1]) + chain[|chain| - 1][..]
  }

  lemma Grouped(z: seq<byte>, a: seq<byte>, b: seq<byte>, c: seq<byte>)
    ensures z + a + b + c == z + (a + b + c) && z + a + b == z + (a + b)
  {
  }

  lemma Grouped4(z: seq<byte>, a: seq<byte>, b: seq<byte>, c: seq<byte>, d: seq<byte>)
    ensures z + a + b + c + d == z + (a + b + c + d)
  {
  }

  class WriteBlock {
    var chain: seq<array<byte>>
    var len: nat
    var ptr: nat

    ghost predicate Valid()
      reads this, chain
    {
      && chain != [] && ptr <= BLOCK_SIZE && len == BLOCK_SIZE * (|chain| - 1) + ptr
      && (forall b :: b in chain ==> b.Length == BLOCK_SIZE)
      && (forall i, j :: 0 <= i < j < |chain| ==> chain[i] != chain[j])
    }

    ghost function Contents(): (r: seq<byte>)
      requires Valid()
      reads this, chain
      ensures |r| == len
    {
      Flat(chain[..|chain| - 1]) + chain[|chain| - 1][..ptr]
    }

    /** `wb_init` */
    constructor ()
      ensures Valid() && fresh(chain) && Contents() == []
    {
      var b := new byte[BLOCK_SIZE];
      chain, len, ptr := [b], 0, 0;
    }

    method NewBlock()
      requires Valid() && ptr == BLOCK_SIZE
      modifies this
      ensures Valid() && Contents() == old(Contents()) && ptr == 0
      ensures |chain| == |old(chain)| + 1 && chain[..|chain| - 1] == old(chain) && fresh(chain[|chain| - 1])
    {
      var b := new byte[BLOCK_SIZE];
      ghost var was := chain;
      chain := chain + [b];
      ptr := 0;
      assert chain[..|chain| - 1] == was;
      assert b[..0] == [];
      assert was[|was| - 1][..BLOCK_SIZE] == was[|was| - 1][..];
    }

    /** `memcpy` into the current block. */
    method Copy(data: seq<byte>)
      requires Valid() && ptr + |data| <= BLOCK_SIZE
      modifies this`ptr, this`len, chain[|chain| - 1]
      ensures Valid() && Contents() == old(Contents()) + data && ptr == old(ptr) + |data|
    {
      var b := chain[|chain| - 1];
      ghost var full := Flat(chain[..|chain| - 1]);
      ghost var part := b[..ptr];
      forall i | 0 <= i < |data| { b[ptr + i] := data[i]; }
      assert b[..ptr + |data|] == part + data;
      ptr := ptr + |data|;
      len := len + |data|;
      assert Contents() == full + (part + data);
    }

    /** Fill the current block and start the next one. */
    method Fill(data: seq<byte>) returns (rest: seq<byte>)
      requires Valid() && ptr < BLOCK_SIZE < ptr + |data|
      modifies this, chain[|chain| - 1]
      ensures Valid() && Contents() + rest == old(Contents()) + data && |rest| < |data| && ptr == 0
      ensures |chain| > 1 && chain[..|chain| - 1] == old(chain) && fresh(chain[|chain| - 1])
    {
      var copy := BLOCK_SIZE - ptr;
      assert data == data[..copy] + data[copy..];
      Copy(data[..copy]);
      rest := data[copy..];
      NewBlock();
    }

    /** `wb_push`: the chain of blocks behaves like one growing buffer. */
    method Push(data: seq<byte>)
      requires Valid()
      modifies this, chain
      ensures Valid() && Contents() == old(Contents()) + data
      ensures forall i :: 0 <= i < |chain| ==> chain[i] in old(chain) || fresh(chain[i])
    {
      var rest := data;
      if ptr == BLOCK_SIZE {
        NewBlock();
      }
      while ptr > BLOCK_SIZE - |rest|
        invariant Valid() && ptr < BLOCK_SIZE
        invariant Contents() + rest == old(Contents()) + data
        invariant forall i :: 0 <= i < |chain| ==> chain[i] in old(chain) || fresh(chain[i])
        decreases |rest|
      {
        rest := Fill(rest);
      }
      Copy(rest);
    }

    /** `seri`: the blocks copied into one buffer. */
    method Joined() returns (r: seq<byte>)
      requires Valid()
      ensures r == Contents()
    {
      r := [];
      var left: int, i: nat := len, 0;
      while left > 0
        invariant i <= |chain| && left == len - BLOCK_SIZE * i && 0 <= left
        invariant r == Flat(chain[..i])
        decreases left
      {
        var b := chain[i];
        if left >= BLOCK_SIZE {
          r := r + b[..];
          left := left - BLOCK_SIZE;
          assert chain[..i + 1][..i] == chain[..i];
          i := i + 1;
        } else {
          r := r + b[..left];
          return;
        }
      }
      Whole();
    }

    /** The last block is full or still empty. */
    lemma Whole()
      requires Valid() && len % BLOCK_SIZE == 0
      ensures Contents() == Flat(chain[..len / BLOCK_SIZE])
    {
      var n := |chain|;
      assert chain[..n][..n - 1] == chain[..n - 1];
      if ptr == 0 {
        assert chain[n - 1][..0] == [];
      } else {
        assert chain[n - 1][..BLOCK_SIZE] == chain[n - 1][..];
      }
    }

    /** `wb_integer` */
    method Integer(v: int64)
      requires Valid()
      modifies this, chain
      ensures Valid() && Contents() == old(Contents()) + EncInt(v)
      ensures forall i :: 0 <= i < |chain| ==> chain[i] in old(chain) || fresh(chain[i])
    {
      hide Le, Power, Valid, Contents;
      Powers();
      if v == 0 {
        Push([Head(TYPE_NUMBER, 0)]);
      } else if v < -0x8000_0000 || v >= 0x8000_0000 {
        Push([Head(TYPE_NUMBER, 6)]);
        Push(Le(Unsigned(v, 8), 8));
      } else if v < 0 {
        Push([Head(TYPE_NUMBER, 4)]);
        Push(Le(Unsigned(v, 4), 4));
      } else if v < 0x100 {
        Push([Head(TYPE_NUMBER, 1)]);
        Push(Le(v, 1));
      } else if v < 0x1_0000 {
        Push([Head(TYPE_NUMBER, 2)]);
        Push(Le(v, 2));
      } else {
        Push([Head(TYPE_NUMBER, 4)]);
        Push(Le(v, 4));
      }
    }

    /** `wb_string` */
    method String(s: seq<byte>)
      requires Valid()
      modifies this, chain
      ensures Valid() && Contents() == old(Contents()) + EncString(s)
      ensures forall i :: 0 <= i < |chain| ==> chain[i] in old(chain) || fresh(chain[i])
    {
      hide Le, Valid, Contents;
      ghost var was := Contents();
      if |s| < MAX_COOKIE {
        Push([Head(TYPE_SHORT_STRING, |s|)]);
        if |s| > 0 {
          Push(s);
        }
        Grouped(was, [Head(TYPE_SHORT_STRING, |s|)], s, []);
      } else {
        if |s| < 0x1_0000 {
          Push([Head(TYPE_LONG_STRING, 2)]);
          Push(Le(|s|, 2));
          Grouped(was, [Head(TYPE_LONG_STRING, 2)], Le(|s|, 2), s);
        } else {
          Push([Head(TYPE_LONG_STRING, 4)]);
          Push(Le(|s|, 4));
          Grouped(was, [Head(TYPE_LONG_STRING, 4)], Le(|s|, 4), s);
        }
        Push(s);
      }
    }

    /** `pack_one`; false stands for the error that ends the whole packing. */
    method PackOne(v: Value, depth: nat) returns (ok: bool)
      requires Valid()
      modifies this, chain
      ensures ok == Packable(v, depth) && Valid()
      ensures ok ==> Contents() == old(Contents()) + Enc(v, depth)
      ensures forall i :: 0 <= i < |chain| ==> chain[i] in old(chain) || fresh(chain[i])
      decreases v, 1
    {
      hide Le, EncInt, EncString, Valid, Contents;
      if depth > MAX_DEPTH {
        return false;
      }
      ok := true;
      match v {
        case Nil => Push([Head(TYPE_NIL, 0)]);
        case Bool(b) => Push([Head(TYPE_BOOLEAN, if b then 1 else 0)]);
        case Int(i) => Integer(i);
        case Real(bits) =>
          Push([Head(TYPE_NUMBER, 8)]);
          Push(Le(bits, 8));
        case Pointer(a) =>
          Push([Head(TYPE_USERDATA, 0)]);
          Push(Le(a, 8));
        case Str(s) =>
          if |s| >= 0x8000_0000 {
            return false;
          }
          String(s);
        case Table(_, _) => ok := PackTable(v, depth);
        case Other => ok := false;
      }
    }

    /** `wb_table`: the array part, then the other pairs, then nil. */
    method PackTable(v: Value, depth: nat) returns (ok: bool)
      requires Valid() && v.Table? && depth <= MAX_DEPTH
      modifies this, chain
      ensures ok == Packable(v, depth) && Valid()
      ensures ok ==> Contents() == old(Contents()) + Enc(v, depth)
      ensures forall i :: 0 <= i < |chain| ==> chain[i] in old(chain) || fresh(chain[i])
      decreases v, 0
    {
      hide Le, EncInt, AllPackable, PairsPackable, EncAll, EncPairs, Valid, Contents;
      if |v.arr| >= 0x8000_0000 {
        return false;
      }
      ghost var was := Contents();
      Header(|v.arr|);
      ok := PackArray(v.arr, depth + 1);
      if ok {
        ok := PackPairs(v.pairs, depth + 1);
        if ok {
          Push([Head(TYPE_NIL, 0)]);
          Grouped4(was, EncHeader(|v.arr|), EncAll(v.arr, depth + 1), EncPairs(v.pairs, depth + 1), [Head(TYPE_NIL, 0)]);
        }
      }
    }

    method Header(n: nat)
      requires Valid() && n < 0x8000_0000
      modifies this, chain
      ensures Valid() && Contents() == old(Contents()) + EncHeader(n)
      ensures forall i :: 0 <= i < |chain| ==> chain[i] in old(chain) || fresh(chain[i])
    {
      hide EncInt, Valid, Contents;
      ghost var was := Contents();
      if n >= MAX_COOKIE - 1 {
        Push([Head(TYPE_TABLE, MAX_COOKIE - 1)]);
        Integer(n);
        Grouped(was, [Head(TYPE_TABLE, MAX_COOKIE - 1)], EncInt(n), []);
      } else {
        Push([Head(TYPE_TABLE, n)]);
      }
    }

    /** The loop of `wb_table_array`. */
    method PackArray(arr: seq<Value>, depth: nat) returns (ok: bool)
      requires Valid()
      modifies this, chain
      ensures ok == AllPackable(arr, depth) && Valid()
      ensures ok ==> Contents() == old(Contents()) + EncAll(arr, depth)
      ensures forall i :: 0 <= i < |chain| ==> chain[i] in old(chain) || fresh(chain[i])
      decreases arr
    {
      hide Enc, Packable, Valid, Contents;
      var i: nat := 0;
      assert arr[0..] == arr;
      while i < |arr|
        invariant i <= |arr| && Valid()
        invariant AllPackable(arr[i..], depth) == AllPackable(arr, depth)
        invariant AllPackable(arr, depth) ==>
          Contents() + EncAll(arr[i..], depth) == old(Contents()) + EncAll(arr, depth)
        invariant forall i :: 0 <= i < |chain| ==> chain[i] in old(chain) || fresh(chain[i])
      {
        assert arr[i..][1..] == arr[i + 1..];
        ok := PackOne(arr[i], depth);
        if !ok {
          return;
        }
        i := i + 1;
      }
      ok := true;
    }

    /** The loop of `wb_table_hash`. */
    method PackPairs(pairs: seq<Pair>, depth: nat) returns (ok: bool)
      requires Valid()
      modifies this, chain
      ensures ok == PairsPackable(pairs, depth) && Valid()
      ensures ok ==> Contents() == old(Contents()) + EncPairs(pairs, depth)
      ensures forall i :: 0 <= i < |chain| ==> chain[i] in old(chain) || fresh(chain[i])
      decreases pairs
    {
      hide Enc, Packable, Valid, Contents;
      var i: nat := 0;
      assert pairs[0..] == pairs;
      while i < |pairs|
        invariant i <= |pairs| && Valid()
        invariant PairsPackable(pairs[i..], depth) == PairsPackable(pairs, depth)
        invariant PairsPackable(pairs, depth) ==>
          Contents() + EncPairs(pairs[i..], depth) == old(Contents()) + EncPairs(pairs, depth)
        invariant forall i :: 0 <= i < |chain| ==> chain[i] in old(chain) || fresh(chain[i])
      {
        assert pairs[i..][1..] == pairs[i + 1..];
        ok := PackPair(pairs[i], depth);
        if !ok {
          return;
        }
        i := i + 1;
      }
      ok := true;
    }

    method PackPair(p: Pair, depth: nat) returns (ok: bool)
      requires Valid()
      modifies this, chain
      ensures ok == PairPackable(p, depth) && Valid()
      ensures ok ==> Contents() == old(Contents()) + EncPair(p, depth)
      ensures forall i :: 0 <= i < |chain| ==> chain[i] in old(chain) || fresh(chain[i])
      decreases p
    {
      hide Enc, Packable, Valid, Contents;
      ok := !p.key.Nil?;
      if ok {
        ok := PackOne(p.key, depth);
        if ok {
          ok := PackOne(p.value, depth);
        }
      }
    }
  }

  class ReadBlock {
    const buffer: seq<byte>
    var len: nat
    var ptr: nat

    ghost predicate Valid()
      reads this
    {
      ptr + len == |buffer|
    }

    ghost function Rest(): (r: seq<byte>)
      requires Valid()
      reads this
      ensures |r| == len
    {
      buffer[ptr..]
    }

    /** `rball_init` */
    constructor (buffer: seq<byte>)
      ensures Valid() && Rest() == buffer
    {
      this.buffer, len, ptr := buffer, |buffer|, 0;
    }

    /** `rb_read` */
    method Read(sz: nat) returns (r: Option<seq<byte>>)
      requires Valid()
      modifies this
      ensures Valid() && r.Some? == (sz <= |old(Rest())|)
      ensures r.Some? ==> |r.value| == sz && r.value == old(Rest())[..sz] && Rest() == old(Rest())[sz..]
      ensures r.None? ==> Rest() == old(Rest())
    {
      if len < sz {
        return None;
      }
      var at := ptr;
      ptr := ptr + sz;
      len := len - sz;
      r := Some(buffer[at..at + sz]);
    }

    /** Whether the outcome of a reading method, and what it left, is what the format says. */
    ghost predicate Agrees<T>(r: Option<T>, spec: Option<(T, seq<byte>)>)
      requires Valid()
      reads this
    {
      r.Some? == spec.Some? && (r.Some? ==> spec.value == (r.value, Rest()))
    }

    method Word(k: nat) returns (r: Option<nat>)
      requires Valid()
      modifies this
      ensures Valid() && Agrees(r, DecWord(old(Rest()), k)) && len <= old(len)
    {
      var b := Read(k);
      r := if b.None? then None else Some(FromLe(b.value));
    }

    /** `get_integer` */
    method Integer(cookie: nat) returns (r: Option<int>)
      requires Valid()
      modifies this
      ensures Valid() && Agrees(r, DecInt(old(Rest()), cookie)) && len <= old(len)
    {
      hide FromLe, Power;
      if cookie == 0 {
        return Some(0);
      }
      if cookie == 1 || cookie == 2 {
        var n := Word(cookie);
        return if n.None? then None else Some(n.value);
      }
      if cookie == 4 || cookie == 6 {
        var k := if cookie == 4 then 4 else 8;
        var n := Word(k);
        return if n.None? then None else Some(Signed(n.value, k));
      }
      r := None;
    }

    /** `get_buffer` */
    method Buffer(n: nat) returns (r: Option<Value>)
      requires Valid()
      modifies this
      ensures Valid() && Agrees(r, DecBuffer(old(Rest()), n)) && len <= old(len)
    {
      var b := Read(n);
      r := if b.None? then None else Some(Str(b.value));
    }

    /** The cases of `push_value` other than tables. */
    method Scalar(t: nat, cookie: nat) returns (r: Option<Value>)
      requires Valid()
      modifies this
      ensures Valid() && Agrees(r, DecScalar(old(Rest()), t, cookie)) && len <= old(len)
    {
      hide DecInt, DecWord, DecBuffer;
      r := None;
      if t == TYPE_NIL {
        r := Some(Nil);
      } else if t == TYPE_BOOLEAN {
        r := Some(Bool(cookie != 0));
      } else if t == TYPE_NUMBER {
        if cookie == 8 {
          var n := Word(8);
          if n.Some? && n.value < 0x1_0000_0000_0000_0000 { r := Some(Real(n.value)); }
        } else {
          var i := Integer(cookie);
          if i.Some? && -0x8000_0000_0000_0000 <= i.value < 0x8000_0000_0000_0000 { r := Some(Int(i.value)); }
        }
      } else if t == TYPE_USERDATA {
        var n := Word(8);
        if n.Some? && n.value < 0x1_0000_0000_0000_0000 { r := Some(Pointer(n.value)); }
      } else if t == TYPE_SHORT_STRING {
        r := Buffer(cookie);
      } else if t == TYPE_LONG_STRING && (cookie == 2 || cookie == 4) {
        var n := Word(cookie);
        if n.Some? { r := Buffer(n.value); }
      }
    }

    /** The size at the start of `unpack_table`. */
    method Size(cookie: nat) returns (r: Option<int>)
      requires Valid()
      modifies this
      ensures Valid() && Agrees(r, DecSize(old(Rest()), cookie)) && len <= old(len)
    {
      hide DecInt;
      if cookie != MAX_COOKIE - 1 {
        return Some(cookie);
      }
      var b := Read(1);
      if b.None? {
        return None;
      }
      var t := b.value[0];
      if t % 8 != TYPE_NUMBER || t / 8 == 8 {
        return None;
      }
      var n := Integer(t / 8);
      r := if n.None? then None else Some(Cut(n.value));
    }

    /** `unpack_one` */
    method UnpackOne() returns (r: Option<Value>)
      requires Valid()
      modifies this
      ensures Valid() && Agrees(r, DecOne(old(Rest()))) && len <= old(len) && (r.Some? ==> len < old(len))
      decreases len, 0
    {
      hide DecValue;
      var b := Read(1);
      if b.None? {
        return None;
      }
      r := PushValue(b.value[0] % 8, b.value[0] / 8);
    }

    /** `push_value` */
    method PushValue(t: nat, cookie: nat) returns (r: Option<Value>)
      requires Valid()
      modifies this
      ensures Valid() && Agrees(r, DecValue(old(Rest()), t, cookie)) && len <= old(len)
      decreases len, 2
    {
      hide DecScalar, DecSize, DecArray, DecPairs;
      if t != TYPE_TABLE {
        r := Scalar(t, cookie);
        return;
      }
      var n := Size(cookie);
      if n.None? {
        return None;
      }
      var arr := UnpackArray(if n.value < 0 then 0 else n.value);
      if arr.None? {
        return None;
      }
      var pairs := UnpackPairs();
      r := if pairs.None? then None else Some(Table(arr.value, pairs.value));
    }

    /** The loop of `unpack_table` over the array part. */
    method UnpackArray(n: nat) returns (r: Option<seq<Value>>)
      requires Valid()
      modifies this
      ensures Valid() && Agrees(r, DecArray(old(Rest()), n)) && len <= old(len)
      decreases len, 1
    {
      hide DecOne;
      var arr: seq<Value>, i: nat := [], 0;
      FrontNil(DecArray(Rest(), n));
      while i < n
        invariant i <= n && Valid() && len <= old(len) && (i > 0 ==> len < old(len))
        invariant DecArray(old(Rest()), n) == Front(arr, DecArray(Rest(), n - i))
        decreases n - i
      {
        var v := UnpackOne();
        if v.None? {
          return None;
        }
        ghost var tail := DecArray(Rest(), n - i - 1);
        if tail.Some? { FrontPush(arr, v.value, tail.value.0, tail.value.1); }
        arr := arr + [v.value];
        i := i + 1;
      }
      if arr != [] { FrontPush(arr, arr[0], [], Rest()); } else { FrontNil(DecArray(Rest(), 0)); }
      r := Some(arr);
    }

    /** The loop of `unpack_table` over the pairs, up to a nil key. */
    method UnpackPairs() returns (r: Option<seq<Pair>>)
      requires Valid()
      modifies this
      ensures Valid() && Agrees(r, DecPairs(old(Rest()))) && len <= old(len)
      decreases len, 1
    {
      hide DecOne;
      var pairs: seq<Pair> := [];
      FrontNil(DecPairs(Rest()));
      while true
        invariant Valid() && len <= old(len) && (pairs != [] ==> len < old(len))
        invariant DecPairs(old(Rest())) == Front(pairs, DecPairs(Rest()))
        decreases len
      {
        var k := UnpackOne();
        if k.None? {
          return None;
        }
        if k.value.Nil? {
          FrontPush(pairs, Pair(Nil, Nil), [], Rest());
          return Some(pairs);
        }
        var v := UnpackOne();
        if v.None? {
          return None;
        }
        ghost var tail := DecPairs(Rest());
        if tail.Some? { FrontPush(pairs, Pair(k.value, v.value), tail.value.0, tail.value.1); }
        pairs := pairs + [Pair(k.value, v.value)];
      }
    }
  }

  /** What is read so far, before the rest of a sequence. */
  function Front<T>(xs: seq<T>, r: Option<(seq<T>, seq<byte>)>): Option<(seq<T>, seq<byte>)> {
    match r case None => None case Some((ys, rest)) => Some((xs + ys, rest))
  }

  lemma FrontNil<T>(r: Option<(seq<T>, seq<byte>)>)
    ensures Front([], r) == r
  {
    if r.Some? { assert [] + r.value.0 == r.value.0; }
  }

  lemma FrontPush<T>(xs: seq<T>, x: T, ys: seq<T>, rest: seq<byte>)
    ensures Front(xs, Some(([x] + ys, rest))) == Front(xs + [x], Some((ys, rest)))
    ensures Front(xs, Some(([], rest))) == Some((xs, rest))
  {
    assert xs + ([x] + ys) == xs + [x] + ys && xs + [] == xs;
  }

  /** `luaseri_pack`; None when a value cannot be packed. */
  method Pack(vs: seq<Value>) returns (r: Option<seq<byte>>)
    ensures r.Some? == AllPackable(vs, 0) == AllFit(vs, 32)
    ensures r.Some? ==> r.value == EncAll(vs, 0) && IsValues(r.value, vs)
  {
    hide AllPackable, AllFit, IsValues;
    AllFitIff(vs, 0);
    if AllPackable(vs, 0) { WrittenValues(vs, 0); }
    var wb := new WriteBlock();
    var ok := wb.PackArray(vs, 0);
    if !ok {
      return None;
    }
    var buffer := wb.Joined();
    r := Some(buffer);
  }

  /** `luaseri_unpack` */
  method Unpack(buffer: seq<byte>) returns (r: Option<seq<Value>>)
    ensures r == DecList(buffer)
    ensures forall vs :: IsValues(buffer, vs) ==> r == Some(vs)
  {
    hide DecOne, DecValue, IsValues;
    forall vs | IsValues(buffer, vs) ensures DecList(buffer) == Some(vs) { ReadList(buffer, vs); }
    var rb := new ReadBlock(buffer);
    var vs: seq<Value> := [];
    ListFrom([], DecList(buffer));
    while rb.len > 0
      invariant fresh(rb) && rb.Valid()
      invariant DecList(buffer) == Before(vs, DecList(rb.Rest()))
      decreases rb.len
    {
      var v := rb.UnpackOne();
      if v.None? {
        return None;
      }
      ghost var tail := DecList(rb.Rest());
      if tail.Some? { assert vs + ([v.value] + tail.value) == vs + [v.value] + tail.value; }
      vs := vs + [v.value];
    }
    assert vs + [] == vs;
    r := Some(vs);
  }

  function Before<T>(xs: seq<T>, r: Option<seq<T>>): Option<seq<T>> {
    match r case None => None case Some(ys) => Some(xs + ys)
  }

  lemma ListFrom<T>(xs: seq<T>, r: Option<seq<T>>)
    requires xs == []
    ensures Before(xs, r) == r
  {
    if r.Some? { assert xs + r.value == r.value; }
  }

  /** Packing and then unpacking returns the values, whenever they can be packed. */
  method RoundTrip(vs: seq<Value>) returns (r: Option<seq<Value>>)
    ensures r == if AllPackable(vs, 0) then Some(vs) else None
  {
    var b := Pack(vs);
    if b.None? {
      return None;
    }
    ListBack(vs);
    r := Unpack(b.value);
  }
}
