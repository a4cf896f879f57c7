/** The buffers of `lua-bson`: the writer with its reserved lengths, the reader, and replacement in place. */
module Bson {
  import opened Words
  import opened Utf8
  import opened BsonFormat
  import opened BsonBack
  import opened BsonIndex
  import opened BsonSpec

  const DEFAULT_CAP := 64

  function Joined(a: bytes, b: Option<bytes>): Option<bytes> { if b.None? then None else Some(a + b.value) }

  lemma JoinedMore(a: bytes, b: bytes, c: Option<bytes>)
    ensures Joined(a + b, c) == Joined(a, Joined(b, c))
  {
    if c.Some? { Assoc(a, b, c.value); }
  }

  lemma JoinedNone(b: Option<bytes>)
    ensures Joined([], b) == b
  {
    if b.Some? { assert [] + b.value == b.value; }
  }

  lemma Le4(u: nat)
    ensures Le(u, 4) == [u % 256, u / 256 % 256, u / 256 / 256 % 256, u / 256 / 256 / 256 % 256]
  {
    assert Le(u, 4) == [u % 256] + Le(u / 256, 3);
    assert Le(u / 256, 3) == [u / 256 % 256] + Le(u / 256 / 256, 2);
    assert Le(u / 256 / 256, 2) == [u / 256 / 256 % 256] + Le(u / 256 / 256 / 256, 1);
    assert Le(u / 256 / 256 / 256, 1) == [u / 256 / 256 / 256 % 256] + Le(u / 256 / 256 / 256 / 256, 0);
  }

  class Writer {
    var ptr: array<byte>
    var size: nat

    ghost predicate Valid()
      reads this
    {
      size <= ptr.Length && DEFAULT_CAP <= ptr.Length
    }

    ghost function Contents(): (r: bytes)
      requires Valid()
      reads this, ptr
      ensures |r| == size
    {
      ptr[..size]
    }

    /** `bson_create` */
    constructor ()
      ensures Valid() && fresh(ptr) && Contents() == []
    {
      ptr := new byte[DEFAULT_CAP];
      size := 0;
    }

    /** `bson_reserve` */
    method Reserve(sz: nat)
      requires Valid()
      modifies this`ptr
      ensures Valid() && (ptr == old(ptr) || fresh(ptr))
      ensures size + sz <= ptr.Length && Contents() == old(Contents())
    {
      if size + sz <= ptr.Length {
        return;
      }
      var cap := 2 * ptr.Length;
      while cap <= size + sz
        invariant cap >= 2 * ptr.Length
        decreases size + sz - cap
      {
        cap := 2 * cap;
      }
      var more := new byte[cap];
      forall i | 0 <= i < size { more[i] := ptr[i]; }
      assert more[..size] == ptr[..size];
      ptr := more;
    }

    method Set(data: bytes, at: nat)
      requires at + |data| <= ptr.Length
      modifies ptr
      ensures ptr[..at + |data|] == old(ptr[..at]) + data
    {
      ghost var was := ptr[..at];
      forall i | 0 <= i < |data| { ptr[at + i] := data[i]; }
      assert ptr[..at + |data|] == was + data;
    }

    /** Copying `data` into room that was reserved. */
    method Copy(data: bytes)
      requires Valid() && size + |data| <= ptr.Length
      modifies this`size, ptr
      ensures Valid() && Contents() == old(Contents()) + data
    {
      Set(data, size);
      size := size + |data|;
    }

    method Append(data: bytes)
      requires Valid()
      modifies this, ptr
      ensures Valid() && (ptr == old(ptr) || fresh(ptr)) && Contents() == old(Contents()) + data
    {
      Reserve(|data|);
      Copy(data);
    }

    /** `write_int32` of a machine word. */
    method WriteInt32(u: nat)
      requires Valid()
      modifies this, ptr
      ensures Valid() && (ptr == old(ptr) || fresh(ptr)) && Contents() == old(Contents()) + Le(u, 4)
    {
      Le4(u);
      Reserve(4);
      Copy([u % 256, u / 256 % 256, u / 256 / 256 % 256, u / 256 / 256 / 256 % 256]);
    }

    /** `write_int64` and `write_double`: the bytes from the lowest on. */
    method WriteInt64(u: nat)
      requires Valid()
      modifies this, ptr
      ensures Valid() && (ptr == old(ptr) || fresh(ptr)) && Contents() == old(Contents()) + Le(u, 8)
    {
      hide Valid;
      ghost var was := Contents();
      Reserve(8);
      ghost var done: bytes := [];
      var i, v := 0, u;
      while i < 8
        modifies this`size, ptr
        invariant Valid() && 0 <= i <= 8 && size + 8 - i <= ptr.Length
        invariant Contents() == was + done && done + Le(v, 8 - i) == Le(u, 8)
      {
        assert Le(v, 8 - i) == [v % 256] + Le(v / 256, 7 - i);
        Assoc(done, [v % 256], Le(v / 256, 7 - i));
        Assoc(was, done, [v % 256]);
        Copy([v % 256]);
        done := done + [v % 256];
        i, v := i + 1, v / 256;
      }
      assert Le(v, 0) == [] && done + [] == done;
    }

    /** `write_length` at an offset that was reserved. */
    method WriteLength(u: nat, off: nat)
      requires Valid() && off + 4 <= size
      modifies ptr
      ensures Valid() && Contents() == old(Contents())[..off] + Le(u, 4) + old(Contents())[off + 4..]
    {
      Le4(u);
      ptr[off], ptr[off + 1], ptr[off + 2], ptr[off + 3] := u % 256, u / 256 % 256, u / 256 / 256 % 256, u / 256 / 256 / 256 % 256;
    }

    /** `reserve_length`: four bytes that are written later. */
    method ReserveLength() returns (off: nat)
      requires Valid()
      modifies this, ptr
      ensures Valid() && (ptr == old(ptr) || fresh(ptr)) && off == old(size) && size == off + 4
      ensures Contents()[..off] == old(Contents())
    {
      off := size;
      Reserve(4);
      size := size + 4;
      assert ptr[..size][..off] == ptr[..off];
    }

    /** The loop of `write_string`: character by character. */
    method CopyText(s: bytes) returns (ok: bool)
      requires Valid() && size + |s| <= ptr.Length
      modifies ptr
      ensures ok == Text(s) && ptr[..size] == old(ptr[..size])
      ensures ok ==> ptr[..size + |s|] == old(ptr[..size]) + s
    {
      hide CharLen, Text, Valid;
      ghost var was := ptr[..size];
      Pieces(s);
      var done := 0;
      while done < |s|
        modifies ptr
        invariant 0 <= done <= |s| && ptr[..size + done] == was + s[..done]
        invariant Text(s) == Text(s[done..])
      {
        var n := Utf8Copy(s[done..]);
        TextStep(s[done..]);
        if n == 0 {
          Before(ptr[..size + done], was, s[..done]);
          return false;
        }
        Set(s[done..done + n], size + done);
        Cuts(s, done, n);
        Assoc(was, s[..done], s[done..done + n]);
        done := done + n;
      }
      Before(ptr[..size + done], was, s[..done]);
      TextStep(s[done..]);
      ok := true;
    }

    /** `write_string`: a text and a zero byte. */
    method WriteString(s: bytes) returns (ok: bool)
      requires Valid()
      modifies this, ptr
      ensures Valid() && (ptr == old(ptr) || fresh(ptr)) && ok == Text(s)
      ensures ok ==> Contents() == old(Contents()) + s + [0]
    {
      hide Text;
      Reserve(|s| + 1);
      ok := CopyText(s);
      if ok {
        Set([0], size + |s|);
        size := size + |s| + 1;
      }
    }

    /** `append_key` */
    method AppendKey(tag: byte, key: bytes) returns (ok: bool)
      requires Valid()
      modifies this, ptr
      ensures Valid() && (ptr == old(ptr) || fresh(ptr)) && ok == Text(key)
      ensures ok ==> Contents() == old(Contents()) + ([tag] + key + [0])
    {
      hide Valid, Text;
      ghost var was := Contents();
      Append([tag]);
      ok := WriteString(key);
      if ok {
        Assoc(was, [tag], key);
        Assoc(was, [tag] + key, [0]);
      }
    }

    /** `append_number` for integers. */
    method AppendInt(i: int64, key: bytes) returns (ok: bool)
      requires Valid()
      modifies this, ptr
      ensures Valid() && (ptr == old(ptr) || fresh(ptr)) && ok == Text(key)
      ensures ok ==> Contents() == old(Contents()) + ([EncInt(i).tag] + key + [0] + EncInt(i).pay)
    {
      hide Valid, Text, Le, Power;
      Powers();
      ghost var was := Contents();
      var f := EncInt(i);
      if Is32(i) {
        ok := AppendKey(BSON_INT32, key);
        if ok { WriteInt32(Unsigned(i, 4)); }
      } else {
        ok := AppendKey(BSON_INT64, key);
        if ok { WriteInt64(Unsigned(i, 8)); }
      }
      Assoc(was, [f.tag] + key + [0], f.pay);
    }

    /** `write_binary`: the length does not count the subtype. */
    method WriteBinary(d: bytes)
      requires Valid()
      modifies this, ptr
      ensures Valid() && (ptr == old(ptr) || fresh(ptr))
      ensures |d| - 1 + Power(4) >= 0 && Contents() == old(Contents()) + (Word(|d| - 1, 4) + d)
    {
      Powers();
      ghost var was := Contents();
      var off := ReserveLength();
      ghost var mid := Contents();
      Append(d);
      WriteLength(Unsigned(|d| - 1, 4), off);
      assert (mid + d)[..off] == was && (mid + d)[off + 4..] == d;
      Assoc(was, Le(Unsigned(|d| - 1, 4), 4), d);
    }

    /** The cases of `append_one` for a tagged string. */
    method AppendTagged(s: bytes, key: bytes) returns (ok: bool)
      requires Valid() && Tagged(s)
      modifies this, ptr
      ensures Valid() && (ptr == old(ptr) || fresh(ptr)) && ok == (Text(key) && EncTagged(s).Some?)
      ensures ok ==> Contents() == old(Contents()) + ([EncTagged(s).value.tag] + key + [0] + EncTagged(s).value.pay)
    {
      hide Valid, Text, Le, FromLe, Power, LastZero;
      ghost var was := Contents();
      var tag, d := s[1], s[2..];
      ok := AppendKey(tag, key);
      if !ok {
        return;
      }
      ghost var head := [tag] + key + [0];
      assert Contents() == was + head;
      if tag == BSON_BINARY {
        WriteBinary(d);
      } else if tag == BSON_OBJECTID {
        ok := |d| == 12;
        if ok { Append(d); }
      } else if tag == BSON_JSCODE || tag == BSON_DBPOINTER || tag == BSON_SYMBOL || tag == BSON_CODEWS {
        Append(d);
      } else if tag == BSON_DATE {
        ok := |d| == 4;
        if ok { WriteInt64(FromLe(d) * 1000); }
      } else if tag == BSON_TIMESTAMP {
        ok := |d| == 8;
        if ok { WriteStamp(d); }
      } else if tag == BSON_REGEX {
        ok := WriteRegex(d);
      } else if tag == BSON_MINKEY || tag == BSON_MAXKEY || tag == BSON_NULL {
        assert head + [] == head;
      } else if tag == BSON_INT64 {
        ok := |d| == 8;
        if ok {
          LeFromLe(d);
          WriteInt64(FromLe(d));
        }
      } else {
        ok := false;
      }
      if ok { Assoc(was, head, EncTagged(s).value.pay); }
    }

    /** Increment and time as two words. */
    method WriteStamp(d: bytes)
      requires Valid() && |d| == 8
      modifies this, ptr
      ensures Valid() && (ptr == old(ptr) || fresh(ptr)) && Contents() == old(Contents()) + d
    {
      hide Le, FromLe;
      ghost var was := Contents();
      LeFromLe(d[..4]);
      LeFromLe(d[4..]);
      WriteInt32(FromLe(d[..4]));
      WriteInt32(FromLe(d[4..]));
      Assoc(was, d[..4], d[4..]);
      assert d[..4] + d[4..] == d;
    }

    /** A pattern and its options, up to the last byte; they are divided by the last zero. */
    method WriteRegex(d: bytes) returns (ok: bool)
      requires Valid()
      modifies this, ptr
      ensures Valid() && (ptr == old(ptr) || fresh(ptr))
      ensures var e := EncTagged([0, BSON_REGEX] + d); ok == e.Some? && (ok ==> Contents() == old(Contents()) + e.value.pay)
    {
      hide Valid, Text, LastZero, Le, FromLe, Power;
      assert ([0, BSON_REGEX] + d)[2..] == d;
      if d == [] {
        return false;
      }
      ghost var was := Contents();
      var len := |d| - 1;
      var i := 0;
      while i < len && d[len - i - 1] != 0
        modifies {}
        invariant 0 <= i <= len && forall k :: len - i <= k < len ==> d[k] != 0
      {
        i := i + 1;
      }
      LastIs(d[..len], len - i - 1);
      if i == len {
        return false;
      }
      var z := len - i - 1;
      ok := WriteString(d[..z]);
      if ok {
        ok := WriteString(d[z + 1..len]);
        Assoc(was, d[..z], [0]);
        Assoc(was, d[..z] + [0], d[z + 1..len]);
        Assoc(was, d[..z] + [0] + d[z + 1..len], [0]);
      }
    }

    /** `append_one`; arrays and dictionaries by `append_table`. */
    method AppendOne(v: Value, key: bytes, depth: nat) returns (ok: bool)
      requires Valid()
      modifies this, ptr
      ensures Valid() && (ptr == old(ptr) || fresh(ptr)) && ok == (Text(key) && EncValue(v, depth).Some?)
      ensures ok ==> var f := EncValue(v, depth).value; Contents() == old(Contents()) + ([f.tag] + key + [0] + f.pay)
      // one element of the grammar, with the value `v`
      ensures ok && Canonical(v) && |Contents()| < 0x8000_0000 ==>
        exists tag, p :: IsPayload(tag, p, v) && Contents() == old(Contents()) + ([tag] + key + [0] + p)
      decreases v, 1
    {
      PayloadOf(v, depth);
      hide Valid, Text, EncFields, EncInt, EncTagged, Le, Doc, IsPayload, Canonical;
      ghost var was := Contents();
      match v
      case Bool(b) =>
        ok := AppendKey(BSON_BOOLEAN, key);
        if ok {
          Append([if b then 1 else 0]);
          Assoc(was, [BSON_BOOLEAN] + key + [0], [if b then 1 else 0]);
        }
      case Int(i) => ok := AppendInt(i, key);
      case Real(bits) =>
        ok := AppendKey(BSON_REAL, key);
        if ok {
          WriteInt64(bits);
          Assoc(was, [BSON_REAL] + key + [0], Le(bits, 8));
        }
      case Str(s) =>
        if Tagged(s) {
          ok := AppendTagged(s, key);
        } else {
          ok := AppendText(s, key);
        }
      case Table(es) => ok := AppendTable(es, key, depth + 1);
      case Other => ok := false;
    }

    method AppendText(s: bytes, key: bytes) returns (ok: bool)
      requires Valid() && !Tagged(s)
      modifies this, ptr
      ensures Valid() && (ptr == old(ptr) || fresh(ptr)) && ok == (Text(key) && Text(s))
      ensures ok ==> Contents() == old(Contents()) + ([BSON_STRING] + key + [0] + (Le(|s| + 1, 4) + s + [0]))
    {
      hide Text, Le;
      ghost var was := Contents();
      ok := AppendKey(BSON_STRING, key);
      if !ok {
        return;
      }
      ghost var head := [BSON_STRING] + key + [0];
      var off := ReserveLength();
      ghost var mid := Contents();
      ok := WriteString(s);
      if ok {
        WriteLength(|s| + 1, off);
        assert (mid + s + [0])[..off] == was + head && (mid + s + [0])[off + 4..] == s + [0];
        Assoc(Le(|s| + 1, 4), s, [0]);
        Assoc(was + head, Le(|s| + 1, 4), s + [0]);
        Assoc(was, head, Le(|s| + 1, 4) + s + [0]);
      }
    }

    /** `append_table` */
    method AppendTable(es: seq<Entry>, key: bytes, depth: nat) returns (ok: bool)
      requires Valid()
      modifies this, ptr
      ensures Valid() && (ptr == old(ptr) || fresh(ptr))
      ensures ok == (depth <= MAX_DEPTH && Text(key) && EncFields(es, if IsArray(es) then 0 else -1, depth).Some?)
      ensures ok ==> var body := EncFields(es, if IsArray(es) then 0 else -1, depth).value;
        Contents() == old(Contents()) + ([if IsArray(es) then BSON_ARRAY else BSON_DOCUMENT] + key + [0] + Doc(body))
      decreases es, 2
    {
      hide Valid, Text, EncFields, Doc;
      if depth > MAX_DEPTH {
        return false;
      }
      ghost var was := Contents();
      var arr := IsArray(es);
      var tag := if arr then BSON_ARRAY else BSON_DOCUMENT;
      ok := AppendKey(tag, key);
      if ok {
        ok := Pack(es, if arr then 0 else -1, depth);
        if ok { Assoc(was, [tag] + key + [0], Doc(EncFields(es, if arr then 0 else -1, depth).value)); }
      }
    }

    /** `pack_array` from key 0 on, or `pack_simple_dict` (`at` is -1). The length is written last, where
        it was reserved. */
    method Pack(es: seq<Entry>, at: int, depth: nat) returns (ok: bool)
      requires Valid()
      modifies this, ptr
      ensures Valid() && (ptr == old(ptr) || fresh(ptr)) && ok == EncFields(es, at, depth).Some?
      ensures ok ==> Contents() == old(Contents()) + Doc(EncFields(es, at, depth).value)
      decreases es, 1
    {
      hide EncFields, Le;
      ghost var was := Contents();
      var off := ReserveLength();
      ghost var mid := Contents();
      ok := Fields(es, at, depth);
      if ok {
        ghost var body := EncFields(es, at, depth).value;
        Append([0]);
        WriteLength(size - off, off);
        Sealed(was, mid, body);
      }
    }

    /** One pass of the loop of `pack_array`, or `pack_dict_data`. */
    method AppendEntry(e: Entry, at: int, depth: nat) returns (ok: bool)
      requires Valid()
      modifies this, ptr
      ensures Valid() && (ptr == old(ptr) || fresh(ptr)) && ok == EncEntry(e, at, depth).Some?
      ensures ok ==> Contents() == old(Contents()) + EncEntry(e, at, depth).value
      decreases e, 2
    {
      hide Valid, EncValue, Decimal, Text;
      var key: bytes;
      if at >= 0 {
        DecimalIsText(at);
        key := Decimal(at);
      } else if e.key.Name? {
        key := e.key.s;
      } else {
        return false;
      }
      ok := AppendOne(e.value, key, depth);
    }

    method Fields(es: seq<Entry>, at: int, depth: nat) returns (ok: bool)
      requires Valid()
      modifies this, ptr
      ensures Valid() && (ptr == old(ptr) || fresh(ptr)) && ok == EncFields(es, at, depth).Some?
      ensures ok ==> Contents() == old(Contents()) + EncFields(es, at, depth).value
      decreases es, 0
    {
      hide Valid, EncValue, Decimal, Text;
      ghost var was := Contents();
      ghost var done: bytes := [];
      var i, k := 0, at;
      JoinedNone(EncFields(es, at, depth));
      assert es[0..] == es && was + [] == was;
      while i < |es|
        invariant 0 <= i <= |es| && Valid() && (ptr == old(ptr) || fresh(ptr))
        invariant Contents() == was + done && Joined(done, EncFields(es[i..], k, depth)) == EncFields(es, at, depth)
      {
        var e := es[i];
        assert es[i..][0] == e && es[i..][1..] == es[i + 1..];
        ok := AppendEntry(e, k, depth);
        if !ok {
          return;
        }
        ghost var one := EncEntry(e, k, depth).value;
        Assoc(was, done, one);
        JoinedMore(done, one, EncFields(es[i + 1..], Next(k), depth));
        done := done + one;
        i, k := i + 1, Next(k);
      }
      assert es[i..] == [];
      assert done + [] == done;
      ok := true;
    }
  }

  lemma PayloadOf(v: Value, depth: nat)
    ensures EncValue(v, depth).Some? && Canonical(v) && |EncValue(v, depth).value.pay| < 0x8000_0000 ==>
      var f := EncValue(v, depth).value; IsPayload(f.tag, f.pay, v)
  {
    hide *;
    if EncValue(v, depth).Some? && Canonical(v) && |EncValue(v, depth).value.pay| < 0x8000_0000 { WrittenValue(v, depth); }
  }

  lemma Pieces(s: bytes)
    ensures s[0..] == s && s[..|s|] == s && s[..0] == [] && s[|s|..] == []
    ensures forall a: bytes :: a + [] == a
  {
  }

  lemma Before(all: bytes, a: bytes, b: bytes)
    requires all == a + b
    ensures all[..|a|] == a
  {
  }

  lemma Cuts(s: bytes, i: nat, n: nat)
    requires i + n <= |s|
    ensures s[..i + n] == s[..i] + s[i..i + n] && s[i..][n..] == s[i + n..]
  {
  }

  lemma DecimalIsText(n: nat)
    ensures Text(Decimal(n))
  {
    DecimalDigits(n);
    DecimalText(Decimal(n));
  }

  lemma LastIs(s: bytes, z: int)
    requires -1 <= z < |s| && (z >= 0 ==> s[z] == 0) && forall k :: z < k < |s| ==> s[k] != 0
    ensures LastZero(s) == z
  {
  }

  lemma Around(was: bytes, mid: bytes, rest: bytes)
    requires |mid| == |was| + 4 && mid[..|was|] == was
    ensures (mid + rest)[..|was|] == was && (mid + rest)[|was| + 4..] == rest
  {
  }

  lemma Sealed(was: bytes, mid: bytes, body: bytes)
    requires |mid| == |was| + 4 && mid[..|was|] == was
    ensures var all := mid + body + [0];
      all[..|was|] + Le(|all| - |was|, 4) + all[|was| + 4..] == was + Doc(body)
  {
    hide Le;
    var all := mid + body + [0];
    Assoc(mid, body, [0]);
    Around(was, mid, body + [0]);
    Assoc(Le(|body| + 5, 4), body, [0]);
    Assoc(was, Le(|body| + 5, 4), body + [0]);
  }

  lemma DocumentOf(es: seq<Entry>)
    ensures Encode(es).Some? && |Encode(es).value| < 0x8000_0000 && AllCanonical(es) ==> IsDocument(Encode(es).value, es, false)
    ensures AllFit(es) && Named(es) ==> (Encode(es).Some? <==> AllNested(es, 128))
  {
    hide *;
    if AllFit(es) && Named(es) { EncodedIff(es); }
    if Encode(es).Some? && |Encode(es).value| < 0x8000_0000 && AllCanonical(es) { EncodesOnly(es); }
  }

  /** `encode` of a plain table. */
  method EncodeTable(es: seq<Entry>) returns (r: Option<bytes>)
    ensures r == Encode(es)
    // a document of the grammar, with the values of the table
    ensures r.Some? && |r.value| < 0x8000_0000 && AllCanonical(es) ==> IsDocument(r.value, es, false)
    ensures AllFit(es) && Named(es) ==> (r.Some? <==> AllNested(es, 128))
  {
    DocumentOf(es);
    hide EncFields, Doc, IsDocument, AllCanonical, AllFit, Named, AllNested;
    var b := new Writer();
    var ok := b.Pack(es, -1, 0);
    if !ok {
      return None;
    }
    assert [] + Doc(EncFields(es, -1, 0).value) == Doc(EncFields(es, -1, 0).value);
    r := Some(b.ptr[..b.size]);
  }

  // ---- reading

  function Byte(b: bytes): Option<(byte, bytes)> { if b == [] then None else Some((b[0], b[1..])) }

  predicate Ahead(b: bytes, p: bytes, more: bytes) { b == p + more }

  lemma PayloadRead(tag: byte, b: bytes)
    ensures forall p, v, more :: IsPayload(tag, p, v) && !v.Table? && Ahead(b, p, more) ==> DecScalar(tag, b) == Some((v, more))
  {
    hide IsPayload, DecScalar, DecDoc;
    forall p, v, more | IsPayload(tag, p, v) && !v.Table? && Ahead(b, p, more) ensures DecScalar(tag, b) == Some((v, more)) {
      ScalarTag(tag, p, v);
      ReadPayload(tag, p, v, more);
    }
  }

  lemma ScalarTag(tag: byte, p: bytes, v: Value)
    requires IsPayload(tag, p, v) && !v.Table?
    ensures tag != BSON_DOCUMENT && tag != BSON_ARRAY
  {
  }

  /** `bson_reader`: what is left of a block. */
  class Reader {
    var rest: bytes

    /** Whether the outcome of a read, and what it left, is what the format says. */
    ghost predicate Agrees<T>(r: Option<T>, spec: Option<(T, bytes)>)
      reads this
    {
      r.Some? == spec.Some? && (r.Some? ==> spec.value == (r.value, rest))
    }

    constructor (block: bytes)
      ensures rest == block
    {
      rest := block;
    }

    /** `read_bytes` */
    method ReadBytes(sz: int) returns (r: Option<bytes>)
      modifies this
      ensures Agrees(r, Take(old(rest), sz)) && |rest| <= |old(rest)|
    {
      if sz < 0 || |rest| < sz {
        return None;
      }
      r := Some(rest[..sz]);
      rest := rest[sz..];
    }

    method ReadByte() returns (r: Option<byte>)
      modifies this
      ensures Agrees(r, Byte(old(rest))) && |rest| <= |old(rest)|
    {
      if rest == [] {
        return None;
      }
      r := Some(rest[0]);
      rest := rest[1..];
    }

    method ReadWord(k: nat) returns (r: Option<nat>)
      modifies this
      ensures Agrees(r, DecWord(old(rest), k)) && |rest| <= |old(rest)|
    {
      if |rest| < k {
        return None;
      }
      r := Some(FromLe(rest[..k]));
      rest := rest[k..];
    }

    method ReadInt32() returns (r: Option<int>)
      modifies this
      ensures Agrees(r, Int32(old(rest))) && |rest| <= |old(rest)|
    {
      hide FromLe, Power;
      FromLeFits(if |rest| < 4 then [] else rest[..4]);
      var n := ReadWord(4);
      r := if n.None? then None else Some(Signed(n.value, 4));
    }

    method ReadInt64() returns (r: Option<int64>)
      modifies this
      ensures Agrees(r, Int64(old(rest))) && |rest| <= |old(rest)|
    {
      hide FromLe, Power;
      Powers();
      FromLeFits(if |rest| < 8 then [] else rest[..8]);
      var n := ReadWord(8);
      r := if n.None? then None else Some(Signed(n.value, 8));
    }

    /** `read_cstring` */
    method ReadCString() returns (r: Option<bytes>)
      modifies this
      ensures Agrees(r, CString(old(rest))) && |rest| <= |old(rest)|
    {
      var i := 0;
      while true
        modifies {}
        invariant 0 <= i <= |rest| && NoZero(rest[..i])
        decreases |rest| - i
      {
        if i == |rest| {
          assert rest[..i] == rest;
          NoCString(rest);
          return None;
        }
        if rest[i] == 0 {
          break;
        }
        i := i + 1;
      }
      CStringBack(rest[..i], rest[i + 1..]);
      assert rest[..i] + [0] + rest[i + 1..] == rest;
      r := Some(rest[..i]);
      rest := rest[i + 1..];
    }

    /** Types whose bytes are kept as they are, their length word included. */
    method ReadRaw(tag: byte, more: int) returns (r: Option<Value>)
      modifies this
      ensures Agrees(r, DecRaw(tag, old(rest), more)) && |rest| <= |old(rest)|
    {
      hide Int32, Take;
      var start := rest;
      var sz := ReadInt32();
      if sz.None? {
        return None;
      }
      rest := start;
      var raw := ReadBytes(sz.value + more);
      if raw.None? || |raw.value| < 4 {
        return None;
      }
      r := Some(Made(tag, raw.value));
    }

    method ReadString() returns (r: Option<Value>)
      modifies this
      ensures Agrees(r, DecString(old(rest))) && |rest| <= |old(rest)|
    {
      hide Int32;
      r := None;
      var sz := ReadInt32();
      if sz.Some? && sz.value > 0 {
        var s := ReadBytes(sz.value);
        if s.Some? { r := Some(Str(s.value[..sz.value - 1])); }
      }
    }

    method ReadBinary() returns (r: Option<Value>)
      modifies this
      ensures Agrees(r, DecBinary(old(rest))) && |rest| <= |old(rest)|
    {
      hide Int32;
      r := None;
      var sz := ReadInt32();
      if sz.Some? && sz.value >= 0 {
        FirstApart(rest, sz.value);
        var subtype := ReadByte();
        if subtype.Some? {
          var d := ReadBytes(sz.value);
          if d.Some? { r := Some(Made(BSON_BINARY, [subtype.value] + d.value)); }
        }
      }
    }

    method ReadRegex() returns (r: Option<Value>)
      modifies this
      ensures Agrees(r, DecRegex(old(rest))) && |rest| <= |old(rest)|
    {
      hide CString;
      r := None;
      var p := ReadCString();
      if p.Some? {
        var o := ReadCString();
        if o.Some? { r := Some(Made(BSON_REGEX, p.value + [0] + o.value + [0])); }
      }
    }

    /** The cases of `unpack_dict` that are no documents. */
    method ReadScalar(tag: byte) returns (r: Option<Value>)
      modifies this
      ensures Agrees(r, DecScalar(tag, old(rest))) && |rest| <= |old(rest)|
      // the value of a payload of the grammar, and all of it
      ensures forall p, v, more :: IsPayload(tag, p, v) && !v.Table? && Ahead(old(rest), p, more) ==> r == Some(v) && rest == more
    {
      hide IsPayload, Ahead;
      PayloadRead(tag, rest);
      hide Int32, Int64, Take, DecWord, DecRaw, DecString, DecBinary, DecRegex, Le;
      r := None;
      if tag == BSON_REAL {
        var n := ReadWord(8);
        if n.Some? && n.value < 0x1_0000_0000_0000_0000 { r := Some(Real(n.value)); }
      } else if tag == BSON_BOOLEAN {
        var b := ReadByte();
        if b.Some? { r := Some(Bool(b.value != 0)); }
      } else if tag == BSON_STRING {
        r := ReadString();
      } else if tag == BSON_BINARY {
        r := ReadBinary();
      } else if tag == BSON_OBJECTID || tag == BSON_TIMESTAMP {
        var d := ReadBytes(if tag == BSON_OBJECTID then 12 else 8);
        if d.Some? { r := Some(Made(tag, d.value)); }
      } else if tag == BSON_DATE {
        var n := ReadInt64();
        if n.Some? { r := Some(Made(tag, Le(Quot(n.value, 1000) % 0x1_0000_0000, 4))); }
      } else if tag == BSON_MINKEY || tag == BSON_MAXKEY || tag == BSON_NULL {
        r := Some(Made(tag, []));
      } else if tag == BSON_REGEX {
        r := ReadRegex();
      } else if tag == BSON_INT32 {
        var n := ReadInt32();
        if n.Some? && Is32(n.value) { r := Some(Int(n.value)); }
      } else if tag == BSON_INT64 {
        var n := ReadInt64();
        if n.Some? { r := Some(Int(n.value)); }
      } else if tag == BSON_DBPOINTER {
        r := ReadRaw(tag, 16);
      } else if tag == BSON_JSCODE || tag == BSON_SYMBOL {
        r := ReadRaw(tag, 4);
      } else if tag == BSON_CODEWS {
        r := ReadRaw(tag, 0);
      }
    }

    method ReadValue(tag: byte) returns (r: Option<Value>)
      modifies this
      ensures Agrees(r, DecValue(tag, old(rest))) && |rest| <= |old(rest)|
      decreases |rest|, 1
    {
      hide DecScalar, DecDoc;
      if tag == BSON_DOCUMENT || tag == BSON_ARRAY {
        r := UnpackDict(tag == BSON_ARRAY);
      } else {
        r := ReadScalar(tag);
      }
    }

    /** `unpack_dict` */
    method UnpackDict(arr: bool) returns (r: Option<Value>)
      modifies this
      ensures Agrees(r, DecDoc(old(rest), arr)) && |rest| <= |old(rest)|
      decreases |rest|, 0
    {
      hide Int32, DecFields, Take, CString, DecValue;
      r := None;
      var start := rest;
      var sz := ReadInt32();
      if sz.None? {
        return;
      }
      var block := ReadBytes(sz.value - 5);
      if block.None? {
        return;
      }
      var end := ReadByte();
      if end.None? || end.value != 0 {
        return;
      }
      Shorter(start, sz.value - 5);
      var t := new Reader(block.value);
      var es := [];
      NoEntries(DecFields(block.value, arr));
      while t.rest != []
        modifies t
        invariant |t.rest| <= |block.value| < |start|
        invariant DecFields(block.value, arr) == Prepend(es, DecFields(t.rest, arr))
        decreases |t.rest|
      {
        ghost var b := t.rest;
        var tag := t.ReadByte();
        var key := t.ReadCString();
        if key.None? {
          FieldStep(b, arr);
          return;
        }
        var v := t.ReadValue(tag.value);
        if v.None? {
          FieldStep(b, arr);
          return;
        }
        var e := Entry(KeyBack(key.value, arr), v.value);
        FieldStep(b, arr);
        OnTo(es, e, DecFields(t.rest, arr));
        es := es + [e];
      }
      NoFields(arr);
      assert es + [] == es;
      r := Some(Table(es));
    }
  }

  /** The field at the start of a block. */
  lemma FieldStep(b: bytes, arr: bool)
    requires b != []
    ensures var c := CString(b[1..]);
      var v := if c.None? then None else DecValue(b[0], c.value.1);
      DecFields(b, arr) ==
        if v.None? then None else Prepend([Entry(KeyBack(c.value.0, arr), v.value.0)], DecFields(v.value.1, arr))
  {
  }

  lemma OnTo(es: seq<Entry>, e: Entry, r: Option<seq<Entry>>)
    ensures Prepend(es, Prepend([e], r)) == Prepend(es + [e], r)
  {
    if r.Some? { assert es + ([e] + r.value) == es + [e] + r.value; }
  }

  lemma FirstApart(b: bytes, n: nat)
    ensures Take(b, n + 1).Some? ==> b != [] && Take(b, n + 1).value == ([b[0]] + b[1..][..n], b[1..][n..])
  {
    if n + 1 <= |b| {
      assert b[..n + 1] == [b[0]] + b[1..][..n];
      assert b[n + 1..] == b[1..][n..];
    }
  }

  lemma Shorter(b: bytes, n: int)
    ensures Int32(b).Some? && Take(Int32(b).value.1, n).Some? ==> |Take(Int32(b).value.1, n).value.0| < |b|
  {
  }

  lemma {:induction false} NoCString(b: bytes)
    requires NoZero(b)
    ensures CString(b).None?
  {
    if b != [] { NoCString(b[1..]); }
  }

  /** `decode` */
  method DecodeDoc(doc: bytes) returns (r: Option<Value>)
    ensures r == Decode(doc)
    // the values of every document of the grammar
    ensures forall es :: IsDocument(doc, es, false) ==> r == Some(Table(es))
  {
    hide DecDoc, IsDocument;
    forall es | IsDocument(doc, es, false) ensures Decode(doc) == Some(Table(es)) { DecodesEvery(doc, es); }
    var br := new Reader(doc);
    r := br.UnpackDict(false);
  }

  // ---- replacing in place

  /** `lmakeindex` */
  method IndexFields(doc: bytes) returns (r: Option<map<bytes, int>>)
    ensures r == MakeIndex(doc)
  {
    hide Int32, Take, CString, Skip, Walk, Id, FieldSize;
    var br := new Reader(doc);
    var n := br.ReadInt32();
    if n.None? {
      return None;
    }
    var body := br.ReadBytes(n.value - 5);
    if body.None? {
      return None;
    }
    br := new Reader(body.value);
    var idx: map<bytes, int> := map[];
    var off: nat := 4;
    while br.rest != []
      modifies br
      invariant Walk(br.rest, off, idx) == Walk(body.value, 4, map[])
      invariant off == 4 + |body.value| - |br.rest| && off >= 4
      decreases |br.rest|
    {
      ghost var b := br.rest;
      var tag := br.ReadByte();
      var key := br.ReadCString();
      if key.None? {
        WalkStep(b, off, idx);
        return None;
      }
      WalkStep(b, off, idx);
      Lengths(b[1..]);
      var at := off + |key.value| + 2;
      var left := |br.rest|;
      if FieldSize(tag.value) > 0 {
        var field := br.ReadBytes(FieldSize(tag.value));
        if field.None? {
          return None;
        }
        TakeLengths(b, key.value, FieldSize(tag.value));
        idx := idx[key.value := Id(tag.value, at)];
        off := at + FieldSize(tag.value);
      } else {
        var ok := SkipField(br, tag.value);
        if !ok {
          return None;
        }
        off := at + left - |br.rest|;
      }
    }
    WalkDone(off, idx);
    r := Some(idx);
  }

  /** One turn of the walk. */
  lemma WalkStep(b: bytes, off: nat, idx: map<bytes, int>)
    requires b != []
    ensures var c := CString(b[1..]);
      Walk(b, off, idx) ==
        if c.None? then None
        else if FieldSize(b[0]) > 0 then
          var r := Take(c.value.1, FieldSize(b[0]));
          var at := off + |c.value.0| + 2;
          if r.None? then None else Walk(r.value.1, at + FieldSize(b[0]), idx[c.value.0 := Id(b[0], at)])
        else
          var r := Skip(b[0], c.value.1);
          if r.None? then None else Walk(r.value, off + |c.value.0| + 2 + |c.value.1| - |r.value|, idx)
  {
  }

  lemma Lengths(b: bytes)
    ensures CString(b).Some? ==> |CString(b).value.0| + 1 + |CString(b).value.1| == |b|
  {
  }

  lemma TakeLengths(b: bytes, key: bytes, n: nat)
    requires b != [] && CString(b[1..]).Some? && CString(b[1..]).value.0 == key && Take(CString(b[1..]).value.1, n).Some?
    ensures |Take(CString(b[1..]).value.1, n).value.1| + n + |key| + 2 == |b|
  {
  }

  /** The fields that `lmakeindex` passes over. */
  method SkipField(br: Reader, tag: byte) returns (ok: bool)
    modifies br
    ensures ok == Skip(tag, old(br.rest)).Some? && (ok ==> Skip(tag, old(br.rest)).value == br.rest)
    ensures |br.rest| <= |old(br.rest)|
  {
    hide Int32, Take, CString;
    ok := false;
    if tag == BSON_MINKEY || tag == BSON_MAXKEY || tag == BSON_NULL {
      ok := true;
    } else if tag == BSON_REGEX {
      var p := br.ReadCString();
      if p.Some? {
        var o := br.ReadCString();
        ok := o.Some?;
      }
    } else {
      var raw := tag == BSON_JSCODE || tag == BSON_SYMBOL || tag == BSON_STRING;
      var doc := tag == BSON_CODEWS || tag == BSON_ARRAY || tag == BSON_DOCUMENT;
      if raw || doc || tag == BSON_BINARY || tag == BSON_DBPOINTER {
        var sz := br.ReadInt32();
        if sz.Some? {
          var more := if raw then 0 else if doc then -4 else if tag == BSON_BINARY then 1 else 12;
          var d := br.ReadBytes(sz.value + more);
          ok := d.Some?;
        }
      }
    }
  }

  /** `lreplace` on the bytes of an indexed document. */
  method ReplaceField(doc: array<byte>, idx: map<bytes, int>, key: bytes, v: Value) returns (ok: bool)
    requires key in idx ==> 0 <= IdOffset(idx[key]) && IdOffset(idx[key]) + FieldSize(IdType(idx[key])) <= doc.Length
    modifies doc
    ensures ok == Replace(old(doc[..]), idx, key, v).Some?
    ensures doc[..] == if ok then Replace(old(doc[..]), idx, key, v).value else old(doc[..])
  {
    hide NewPay, IdOffset, IdType;
    if key !in idx {
      return false;
    }
    var off := IdOffset(idx[key]);
    var p := NewPay(IdType(idx[key]), v);
    if p.None? {
      return false;
    }
    ghost var was := doc[..];
    forall i | 0 <= i < |p.value| { doc[off + i] := p.value[i]; }
    assert doc[..] == Patch(was, off, p.value);
    ok := true;
  }
}
