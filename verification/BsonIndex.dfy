/**
 * `makeindex` notes where the scalar fields of a document lie; a field is then replaced in place. Any
 * number of replacements is the same update of the decoded table.
 */
module BsonIndex {
  import opened Words
  import opened BsonFormat
  import opened BsonBack

  /** Type and offset of a field in one C integer. */
  function Id(tag: byte, off: nat): int { Cut(tag + 32 * off) }

  function IdType(id: int): byte { id % 32 }

  function IdOffset(id: int): int { id / 32 }

  /** Offsets from 64 MB on are lost. */
  lemma IdBack(tag: byte, off: nat)
    requires tag < 32
    ensures IdType(Id(tag, off)) == tag && (IdOffset(Id(tag, off)) == off <==> off < 0x400_0000)
  {
    var n := tag + 32 * off + 0x8000_0000;
    var q := n / 0x1_0000_0000;
    assert Id(tag, off) == tag + 32 * (off - 0x800_0000 * q);
  }

  /** Size of the fields that can be replaced. */
  function FieldSize(tag: byte): nat {
    if tag == BSON_INT64 || tag == BSON_TIMESTAMP || tag == BSON_DATE || tag == BSON_REAL then 8
    else if tag == BSON_BOOLEAN then 1
    else if tag == BSON_OBJECTID then 12
    else if tag == BSON_INT32 then 4
    else 0
  }

  function SkipBlock(b: bytes, more: int): (r: Option<bytes>)
    ensures r.Some? ==> |r.value| <= |b|
  {
    match Int32(b)
    case None => None
    case Some((n, r1)) => match Take(r1, n + more) case None => None case Some((_, rest)) => Some(rest)
  }

  /** What follows a field that cannot be replaced. */
  function Skip(tag: byte, b: bytes): (r: Option<bytes>)
    ensures r.Some? ==> |r.value| <= |b|
  {
    if tag == BSON_JSCODE || tag == BSON_SYMBOL || tag == BSON_STRING then SkipBlock(b, 0)
    else if tag == BSON_CODEWS || tag == BSON_ARRAY || tag == BSON_DOCUMENT then SkipBlock(b, -4)
    else if tag == BSON_BINARY then SkipBlock(b, 1)
    else if tag == BSON_MINKEY || tag == BSON_MAXKEY || tag == BSON_NULL then Some(b)
    else if tag == BSON_REGEX then
      (match CString(b) case None => None case Some((_, r1)) =>
         match CString(r1) case None => None case Some((_, rest)) => Some(rest))
    else if tag == BSON_DBPOINTER then SkipBlock(b, 12)
    else None
  }

  /** The loop of `makeindex` from offset `off` on. */
  function Walk(b: bytes, off: nat, idx: map<bytes, int>): Option<map<bytes, int>>
    decreases |b|
  {
    if b == [] then Some(idx) else
    match CString(b[1..])
    case None => None
    case Some((key, r1)) =>
      var at := off + |key| + 2;
      if FieldSize(b[0]) > 0 then
        match Take(r1, FieldSize(b[0]))
        case None => None
        case Some((_, rest)) => Walk(rest, at + FieldSize(b[0]), idx[key := Id(b[0], at)])
      else
        match Skip(b[0], r1)
        case None => None
        case Some(rest) => Walk(rest, at + |r1| - |rest|, idx)
  }

  function MakeIndex(doc: bytes): Option<map<bytes, int>> {
    match Int32(doc)
    case None => None
    case Some((n, r1)) => match Take(r1, n - 5) case None => None case Some((body, _)) => Walk(body, 4, map[])
  }

  /** Bytes that replace a field of the type. Reals are given as the C double of the argument. */
  function NewPay(tag: byte, v: Value): (r: Option<bytes>)
    ensures r.Some? ==> |r.value| == FieldSize(tag) > 0
  {
    Powers();
    if tag == BSON_REAL then (if v.Real? then Some(Le(v.bits, 8)) else None)
    else if tag == BSON_BOOLEAN then Some([if v == Bool(false) then 0 else 1])
    else if tag == BSON_INT32 then (if v.Int? then Some(Word(Cut(v.i), 4)) else None)
    else if tag == BSON_INT64 then (if v.Int? then Some(Word(v.i, 8)) else None)
    else if tag == BSON_OBJECTID || tag == BSON_DATE || tag == BSON_TIMESTAMP then
      (if v.Str? && Tagged(v.s) && v.s[1] == tag && EncTagged(v.s).Some? then Some(EncTagged(v.s).value.pay) else None)
    else None
  }

  /** What the field then holds: an integer may be cut, and anything but false is true. */
  function Renewed(tag: byte, v: Value): Value {
    if tag == BSON_INT32 && v.Int? then Int(Cut(v.i))
    else if tag == BSON_BOOLEAN then Bool(v != Bool(false))
    else v
  }

  lemma RenewedIff(tag: byte, v: Value)
    requires NewPay(tag, v).Some?
    ensures Renewed(tag, v) == v <==> (tag == BSON_INT32 ==> Is32(v.i)) && (tag == BSON_BOOLEAN ==> v.Bool?)
  {
  }

  function Patch(doc: bytes, off: nat, p: bytes): bytes
    requires off + |p| <= |doc|
  {
    doc[..off] + p + doc[off + |p|..]
  }

  /** `doc[key] = v`; None is an error. */
  function Replace(doc: bytes, idx: map<bytes, int>, key: bytes, v: Value): Option<bytes> {
    if key !in idx then None else
    var off := IdOffset(idx[key]);
    match NewPay(IdType(idx[key]), v)
    case None => None
    case Some(p) => if 0 <= off && off + |p| <= |doc| then Some(Patch(doc, off, p)) else None
  }

  // ---- fields with the value they hold

  datatype Item = Item(key: bytes, field: Field, value: Value)

  ghost predicate Reads(f: Field, v: Value) { forall rest: bytes :: DecValue(f.tag, f.pay + rest) == Some((v, rest)) }

  ghost predicate Skips(f: Field) { forall rest: bytes :: Skip(f.tag, f.pay + rest) == Some(rest) }

  ghost predicate Good(it: Item) {
    && NoZero(it.key) && Reads(it.field, it.value)
    && if FieldSize(it.field.tag) > 0 then |it.field.pay| == FieldSize(it.field.tag) else Skips(it.field)
  }

  function Head(it: Item): bytes { [it.field.tag] + it.key + [0] }

  function Wire(its: seq<Item>): bytes {
    if its == [] then [] else Head(its[0]) + its[0].field.pay + Wire(its[1..])
  }

  function Entries(its: seq<Item>): (r: seq<Entry>)
    ensures |r| == |its| && forall i :: 0 <= i < |its| ==> r[i] == Entry(Name(its[i].key), its[i].value)
  {
    if its == [] then [] else [Entry(Name(its[0].key), its[0].value)] + Entries(its[1..])
  }

  ghost predicate AllGood(its: seq<Item>) { forall i :: 0 <= i < |its| ==> Good(its[i]) }

  lemma OneRead(it: Item, rest: bytes)
    requires Good(it)
    ensures DecFields(Head(it) + it.field.pay + rest, false) == Prepend([Entry(Name(it.key), it.value)], DecFields(rest, false))
  {
    hide CString, DecValue, Skip;
    var b := Head(it) + it.field.pay + rest;
    assert b[0] == it.field.tag && b[1..] == it.key + [0] + (it.field.pay + rest);
    CStringBack(it.key, it.field.pay + rest);
  }

  lemma {:induction false} WireRead(its: seq<Item>)
    requires AllGood(its)
    ensures DecFields(Wire(its), false) == Some(Entries(its))
  {
    hide DecFields, Good;
    if its == [] {
      NoFields(false);
    } else {
      WireRead(its[1..]);
      OneRead(its[0], Wire(its[1..]));
    }
  }

  lemma DocRead(its: seq<Item>)
    requires AllGood(its) && |Doc(Wire(its))| < 0x8000_0000
    ensures Decode(Doc(Wire(its))) == Some(Table(Entries(its)))
  {
    hide DecFields, AllGood, Wire, Int32, Le;
    var body := Wire(its);
    LengthBack(|body| + 5, body + [0]);
    TakeBack(body, [0]);
    assert Doc(body) == Le(|body| + 5, 4) + (body + [0]);
    WireRead(its);
  }

  // ---- the index

  /** Index after the fields, the first of them at `off`. */
  function Marks(its: seq<Item>, off: nat, idx: map<bytes, int>): map<bytes, int> {
    if its == [] then idx else
    Marks(its[1..], After(its[0], off), Mark(its[0], off, idx))
  }

  function After(it: Item, off: nat): nat { off + |it.key| + 2 + |it.field.pay| }

  function Mark(it: Item, off: nat, idx: map<bytes, int>): map<bytes, int> {
    if FieldSize(it.field.tag) > 0 then idx[it.key := Id(it.field.tag, off + |it.key| + 2)] else idx
  }

  lemma OneWalk(it: Item, rest: bytes, off: nat, idx: map<bytes, int>)
    requires Good(it)
    ensures Walk(Head(it) + it.field.pay + rest, off, idx) == Walk(rest, After(it, off), Mark(it, off, idx))
  {
    hide CString, Skip, Id, DecValue;
    var b := Head(it) + it.field.pay + rest;
    assert b[0] == it.field.tag && b[1..] == it.key + [0] + (it.field.pay + rest);
    CStringBack(it.key, it.field.pay + rest);
    TakeBack(it.field.pay, rest);
  }

  lemma WalkDone(off: nat, idx: map<bytes, int>)
    ensures Walk([], off, idx) == Some(idx)
  {
  }

  lemma {:induction false} WireWalk(its: seq<Item>, off: nat, idx: map<bytes, int>)
    requires AllGood(its)
    ensures Walk(Wire(its), off, idx) == Some(Marks(its, off, idx))
  {
    hide Walk, Good, Mark, After;
    if its == [] {
      WalkDone(off, idx);
    } else {
      OneWalk(its[0], Wire(its[1..]), off, idx);
      WireWalk(its[1..], After(its[0], off), Mark(its[0], off, idx));
    }
  }

  lemma DocIndex(its: seq<Item>)
    requires AllGood(its) && |Doc(Wire(its))| < 0x8000_0000
    ensures MakeIndex(Doc(Wire(its))) == Some(Marks(its, 4, map[]))
  {
    hide Walk, AllGood, Wire, Int32, Le, Marks;
    var body := Wire(its);
    LengthBack(|body| + 5, body + [0]);
    TakeBack(body, [0]);
    assert Doc(body) == Le(|body| + 5, 4) + (body + [0]);
    WireWalk(its, 4, map[]);
  }

  predicate Distinct(its: seq<Item>) { forall i, j :: 0 <= i < j < |its| ==> its[i].key != its[j].key }

  /** Keys, types and sizes are the same. */
  predicate SameShape(a: Item, b: Item) { a.key == b.key && a.field.tag == b.field.tag && |a.field.pay| == |b.field.pay| }

  /** The index depends on the shape of the fields only. */
  lemma {:induction false} MarksShape(a: seq<Item>, b: seq<Item>, off: nat, idx: map<bytes, int>)
    requires |a| == |b| && forall i :: 0 <= i < |a| ==> SameShape(a[i], b[i])
    ensures Marks(a, off, idx) == Marks(b, off, idx) && |Wire(a)| == |Wire(b)|
  {
    if a != [] {
      assert SameShape(a[0], b[0]);
      MarksShape(a[1..], b[1..], After(a[0], off), Mark(a[0], off, idx));
    }
  }

  lemma {:induction false} MarksOthers(its: seq<Item>, off: nat, idx: map<bytes, int>, key: bytes)
    requires forall i :: 0 <= i < |its| ==> its[i].key != key
    ensures (key in Marks(its, off, idx) <==> key in idx) && (key in idx ==> Marks(its, off, idx)[key] == idx[key])
  {
    if its != [] {
      MarksOthers(its[1..], After(its[0], off), Mark(its[0], off, idx), key);
    }
  }

  /** Where the payload of field `i` starts. */
  function Place(its: seq<Item>, i: nat, off: nat): nat
    requires i < |its|
  {
    if i == 0 then off + |its[0].key| + 2 else Place(its[1..], i - 1, After(its[0], off))
  }

  lemma {:induction false} MarksAt(its: seq<Item>, i: nat, off: nat, idx: map<bytes, int>)
    requires i < |its| && Distinct(its) && its[i].key !in idx
    ensures var m := Marks(its, off, idx);
      if FieldSize(its[i].field.tag) > 0 then its[i].key in m && m[its[i].key] == Id(its[i].field.tag, Place(its, i, off))
      else its[i].key !in m
  {
    hide Id;
    if i == 0 {
      MarksOthers(its[1..], After(its[0], off), Mark(its[0], off, idx), its[0].key);
    } else {
      assert its[1..][i - 1] == its[i];
      MarksAt(its[1..], i - 1, After(its[0], off), Mark(its[0], off, idx));
    }
  }

  lemma HeadIs(it: Item)
    ensures Head(it) == [it.field.tag] + it.key + [0] && |Head(it)| == |it.key| + 2
  {
  }

  /** Overwriting the payload of field `i` gives the bytes of the list with that payload. */
  lemma {:induction false} WirePatch(its: seq<Item>, i: nat, off: nat, p: bytes, v: Value)
    requires i < |its| && |p| == |its[i].field.pay|
    ensures var o := Place(its, i, off) - off; var w := Wire(its);
      o >= 0 && o + |p| <= |w|
      && Patch(w, o, p) == Wire(its[i := Item(its[i].key, Field(its[i].field.tag, p), v)])
  {
    hide Patch, Head;
    HeadIs(its[0]);
    var a, t := Head(its[0]) + its[0].field.pay, Wire(its[1..]);
    var item := Item(its[i].key, Field(its[i].field.tag, p), v);
    var its' := its[i := item];
    assert Wire(its) == a + t;
    if i == 0 {
      assert its'[1..] == its[1..];
      HeadIs(item);
      assert Wire(its') == Head(its[0]) + p + t;
      PatchFirst(Head(its[0]), its[0].field.pay, t, p);
    } else {
      WirePatch(its[1..], i - 1, After(its[0], off), p, v);
      assert its'[0] == its[0] && its'[1..] == its[1..][i - 1 := item];
      PatchLater(a, t, Place(its[1..], i - 1, After(its[0], off)) - After(its[0], off), p);
      assert |a| == After(its[0], 0);
    }
  }

  lemma PatchFirst(h: bytes, was: bytes, t: bytes, p: bytes)
    requires |was| == |p|
    ensures Patch(h + was + t, |h|, p) == h + p + t
  {
    assert (h + was + t)[..|h|] == h && (h + was + t)[|h| + |p|..] == t;
  }

  lemma PatchLater(a: bytes, b: bytes, o: nat, p: bytes)
    requires o + |p| <= |b|
    ensures Patch(a + b, |a| + o, p) == a + Patch(b, o, p)
  {
    assert (a + b)[..|a| + o] == a + b[..o];
    assert (a + b)[|a| + o + |p|..] == b[o + |p|..];
  }

  // ---- replacing

  lemma NewReads(tag: byte, v: Value, rest: bytes)
    requires NewPay(tag, v).Some?
    ensures DecValue(tag, NewPay(tag, v).value + rest) == Some((Renewed(tag, v), rest))
  {
    hide Le, FromLe, Power, Int32, Int64, DecRaw, DecRegex, CString, LastZero, Take, Utf8.Text;
    Powers();
    if tag == BSON_REAL {
      WordBack(v.bits, 8, rest);
    } else if tag == BSON_BOOLEAN {
      assert (NewPay(tag, v).value + rest)[1..] == rest;
    } else if tag == BSON_INT32 {
      Int32Back(Cut(v.i), rest);
    } else if tag == BSON_INT64 {
      Int64Back(v.i, rest);
    } else {
      TaggedBack(v.s, rest);
    }
  }

  function Renew(it: Item, v: Value): Item
    requires NewPay(it.field.tag, v).Some?
  {
    Item(it.key, Field(it.field.tag, NewPay(it.field.tag, v).value), Renewed(it.field.tag, v))
  }

  lemma RenewGood(it: Item, v: Value)
    requires Good(it) && NewPay(it.field.tag, v).Some?
    ensures Good(Renew(it, v)) && SameShape(it, Renew(it, v))
  {
    hide DecValue, Skip, NewPay;
    var f := Renew(it, v).field;
    forall rest: bytes ensures DecValue(f.tag, f.pay + rest) == Some((Renewed(f.tag, v), rest)) {
      NewReads(f.tag, v, rest);
    }
  }

  /** The update of the decoded table: the scalar field with that key, if the value suits its type. */
  function Update(its: seq<Item>, key: bytes, v: Value): seq<Item> {
    if its == [] then []
    else if its[0].key != key then [its[0]] + Update(its[1..], key, v)
    else if NewPay(its[0].field.tag, v).Some? then [Renew(its[0], v)] + its[1..]
    else its
  }

  lemma {:induction false} UpdateAt(its: seq<Item>, i: nat, v: Value)
    requires i < |its| && Distinct(its)
    ensures Update(its, its[i].key, v) ==
      if NewPay(its[i].field.tag, v).Some? then its[i := Renew(its[i], v)] else its
  {
    hide NewPay, Renewed;
    if i > 0 {
      assert its[1..][i - 1] == its[i];
      UpdateAt(its[1..], i - 1, v);
      assert [its[0]] + its[1..] == its;
    }
  }

  lemma {:induction false} UpdateNone(its: seq<Item>, key: bytes, v: Value)
    requires forall i :: 0 <= i < |its| ==> its[i].key != key
    ensures Update(its, key, v) == its
  {
    if its != [] {
      UpdateNone(its[1..], key, v);
      assert [its[0]] + its[1..] == its;
    }
  }

  ghost predicate Indexed(its: seq<Item>) { AllGood(its) && Distinct(its) && |Doc(Wire(its))| < 0x400_0000 }

  lemma TypeFits(it: Item)
    requires FieldSize(it.field.tag) > 0
    ensures it.field.tag < 32
  {
  }

  lemma PlaceFits(its: seq<Item>, i: nat)
    requires i < |its|
    ensures 4 <= Place(its, i, 4) && Place(its, i, 4) + |its[i].field.pay| <= |Wire(its)| + 4
  {
    WirePatch(its, i, 4, its[i].field.pay, its[i].value);
  }

  /** A replacement at field `i` in the bytes of the whole document. */
  lemma DocPatch(its: seq<Item>, i: nat, v: Value)
    requires i < |its| && NewPay(its[i].field.tag, v).Some? && |NewPay(its[i].field.tag, v).value| == |its[i].field.pay|
    ensures var o := Place(its, i, 4); var d := Doc(Wire(its)); var p := NewPay(its[i].field.tag, v).value;
      o + |p| <= |d| && Patch(d, o, p) == Doc(Wire(its[i := Renew(its[i], v)]))
  {
    hide NewPay, Wire, Renewed, Place, Patch, Doc;
    var p := NewPay(its[i].field.tag, v).value;
    WirePatch(its, i, 4, p, Renewed(its[i].field.tag, v));
    BodyPatch(Wire(its), Place(its, i, 4) - 4, p);
  }

  lemma BodyPatch(w: bytes, o: nat, p: bytes)
    requires o + |p| <= |w|
    ensures |Doc(w)| == |w| + 5 && Patch(Doc(w), o + 4, p) == Doc(Patch(w, o, p))
  {
    hide Le;
    var l := Le(|w| + 5, 4);
    assert Patch(w, o, p) + [0] == Patch(w + [0], o, p);
    assert Doc(w) == l + (w + [0]);
    PatchLater(l, w + [0], o, p);
  }

  /** One replacement: it is refused or does the update, and the index stays right. */
  lemma ReplaceIs(its: seq<Item>, key: bytes, v: Value)
    requires Indexed(its)
    ensures var d := Doc(Wire(its)); var its' := Update(its, key, v); var r := Replace(d, Marks(its, 4, map[]), key, v);
      && (r.Some? <==> exists i :: 0 <= i < |its| && its[i].key == key && NewPay(its[i].field.tag, v).Some?)
      && (if r.Some? then r.value else d) == Doc(Wire(its'))
      && Indexed(its') && Marks(its', 4, map[]) == Marks(its, 4, map[])
  {
    hide NewPay, Wire, Id, IdType, IdOffset, Doc, Good, Renewed, Patch;
    if i :| 0 <= i < |its| && its[i].key == key {
      MarksAt(its, i, 4, map[]);
      UpdateAt(its, i, v);
      assert Good(its[i]);
      if FieldSize(its[i].field.tag) > 0 {
        ReplaceAt(its, i, v);
      } else {
        NoPay(its[i].field.tag, v);
      }
    } else {
      MarksOthers(its, 4, map[], key);
      UpdateNone(its, key, v);
    }
  }

  lemma NoPay(tag: byte, v: Value)
    requires FieldSize(tag) == 0
    ensures NewPay(tag, v).None?
  {
  }

  lemma ReplaceAt(its: seq<Item>, i: nat, v: Value)
    requires Indexed(its) && i < |its| && FieldSize(its[i].field.tag) > 0
    ensures var d := Doc(Wire(its)); var r := Replace(d, Marks(its, 4, map[]), its[i].key, v);
      r.Some? <==> NewPay(its[i].field.tag, v).Some?
    ensures NewPay(its[i].field.tag, v).Some? ==>
      var d := Doc(Wire(its)); var its' := its[i := Renew(its[i], v)];
      && Replace(d, Marks(its, 4, map[]), its[i].key, v) == Some(Doc(Wire(its')))
      && Indexed(its') && Marks(its', 4, map[]) == Marks(its, 4, map[])
  {
    hide NewPay, Wire, Id, IdType, IdOffset, Good, Renewed, Patch;
    var o := Place(its, i, 4);
    MarksAt(its, i, 4, map[]);
    TypeFits(its[i]);
    PlaceFits(its, i);
    IdBack(its[i].field.tag, o);
    if NewPay(its[i].field.tag, v).Some? {
      var its' := its[i := Renew(its[i], v)];
      assert Good(its[i]);
      RenewGood(its[i], v);
      assert |NewPay(its[i].field.tag, v).value| == |its[i].field.pay|;
      DocPatch(its, i, v);
      forall k | 0 <= k < |its| ensures SameShape(its[k], its'[k]) && Good(its'[k]) { assert Good(its[k]); }
      MarksShape(its, its', 4, map[]);
    }
  }

  datatype Op = Op(key: bytes, value: Value)

  /** Assignments through one index, refused ones leave the document. */
  function Assign(doc: bytes, idx: map<bytes, int>, ops: seq<Op>): bytes
    decreases |ops|
  {
    if ops == [] then doc else
    var r := Replace(doc, idx, ops[0].key, ops[0].value);
    Assign(if r.Some? then r.value else doc, idx, ops[1..])
  }

  function Updates(its: seq<Item>, ops: seq<Op>): seq<Item>
    decreases |ops|
  {
    if ops == [] then its else Updates(Update(its, ops[0].key, ops[0].value), ops[1..])
  }

  lemma {:induction false} AssignIs(its: seq<Item>, ops: seq<Op>)
    requires Indexed(its)
    ensures Indexed(Updates(its, ops)) && Assign(Doc(Wire(its)), Marks(its, 4, map[]), ops) == Doc(Wire(Updates(its, ops)))
    decreases |ops|
  {
    hide Indexed, Replace, Update, Marks, Wire, Doc;
    if ops != [] {
      ReplaceIs(its, ops[0].key, ops[0].value);
      AssignIs(Update(its, ops[0].key, ops[0].value), ops[1..]);
    }
  }

  // ---- encoded tables

  function ItemOf(e: Entry): Item
    requires e.key.Name? && EncValue(e.value, 0).Some?
  {
    Item(e.key.s, EncValue(e.value, 0).value, e.value)
  }

  function Items(es: seq<Entry>): (r: seq<Item>)
    requires EncFields(es, -1, 0).Some?
    ensures |r| == |es| && forall i :: 0 <= i < |es| ==> es[i].key.Name? && EncValue(es[i].value, 0).Some? && r[i] == ItemOf(es[i])
    ensures Wire(r) == EncFields(es, -1, 0).value
  {
    if es == [] then [] else
    assert EncEntry(es[0], -1, 0).Some?;
    assert KeyOf(es[0].key, -1).Some?;
    var r := [ItemOf(es[0])] + Items(es[1..]);
    assert r[1..] == Items(es[1..]);
    r
  }

  lemma {:induction false} ItemsGood(es: seq<Entry>)
    requires EncFields(es, -1, 0).Some? && AllSound(es) && |EncFields(es, -1, 0).value| < 0x8000_0000
    ensures AllGood(Items(es)) && Entries(Items(es)) == es
  {
    hide Good, EncEntry;
    if es != [] {
      OneGood(es[0]);
      ItemsGood(es[1..]);
    }
  }

  lemma OneGood(e: Entry)
    requires EncEntry(e, -1, 0).Some? && SoundEntry(e) && |EncEntry(e, -1, 0).value| < 0x8000_0000
    ensures e.key.Name? && Good(ItemOf(e))
  {
    hide EncValue, DecValue, Skip;
    var f := EncValue(e.value, 0).value;
    forall rest: bytes ensures DecValue(f.tag, f.pay + rest) == Some((e.value, rest)) { ValueBack(e.value, 0, rest); }
    forall rest: bytes ensures if FieldSize(f.tag) > 0 then |f.pay| == FieldSize(f.tag) else Skip(f.tag, f.pay + rest) == Some(rest) {
      SkipBack(e.value, rest);
    }
  }

  lemma SkipBack(v: Value, rest: bytes)
    requires EncValue(v, 0).Some? && Sound(v) && |EncValue(v, 0).value.pay| < 0x8000_0000
    ensures var f := EncValue(v, 0).value;
      if FieldSize(f.tag) > 0 then |f.pay| == FieldSize(f.tag) else Skip(f.tag, f.pay + rest) == Some(rest)
  {
    hide EncFields, Int32, Le, FromLe, Power, CString, AllSound, LastZero, Take, Utf8.Text;
    var f := EncValue(v, 0).value;
    match v
    case Str(s) => if Tagged(s) { SkipTagged(s, rest); } else { SkipLength(|s| + 1, s, [0], rest, 0); }
    case Table(es) =>
      var body := EncFields(es, if IsArray(es) then 0 else -1, 1).value;
      SkipLength(|body| + 5, body, [0], rest, -4);
    case _ =>
  }

  lemma SkipLength(n: nat, a: bytes, z: bytes, rest: bytes, more: int)
    requires n < 0x8000_0000 && n + more == |a| + |z|
    ensures SkipBlock(Le(n, 4) + a + z + rest, more) == Some(rest)
  {
    hide Int32, Le, Take;
    LengthBack(n, a + z + rest);
    TakeBack(a + z, rest);
    assert Le(n, 4) + a + z + rest == Le(n, 4) + (a + z + rest);
  }

  lemma SkipRaw(d: bytes, more: int, rest: bytes)
    requires RawFits(d, more + 4)
    ensures SkipBlock(d + rest, more) == Some(rest)
  {
    Prefix4(d, rest);
    assert (d + rest)[4..] == d[4..] + rest;
    TakeBack(d[4..], rest);
  }

  lemma SkipRegex(d: bytes, rest: bytes)
    requires DecRegex(d + rest) == Some((Made(BSON_REGEX, d), rest))
    ensures Skip(BSON_REGEX, d + rest) == Some(rest)
  {
    hide CString;
  }

  lemma SkipTagged(s: bytes, rest: bytes)
    requires Tagged(s) && EncTagged(s).Some? && SoundString(s) && |EncTagged(s).value.pay| < 0x8000_0000
    ensures var f := EncTagged(s).value;
      if FieldSize(f.tag) > 0 then |f.pay| == FieldSize(f.tag) else Skip(f.tag, f.pay + rest) == Some(rest)
  {
    hide Int32, Le, FromLe, Power, CString, LastZero, Take, Utf8.Text, DecRegex, RawFits, SkipBlock, DecRaw;
    var tag, d := s[1], s[2..];
    if tag == BSON_BINARY {
      SkipLength(|d| - 1, d, [], rest, 1);
      assert Le(|d| - 1, 4) + d + [] + rest == Le(|d| - 1, 4) + d + rest;
    } else if tag == BSON_DBPOINTER {
      SkipRaw(d, 12, rest);
    } else if tag == BSON_JSCODE || tag == BSON_SYMBOL {
      SkipRaw(d, 0, rest);
    } else if tag == BSON_CODEWS {
      SkipRaw(d, -4, rest);
    } else if tag == BSON_REGEX {
      RegexTagged(d, rest);
      SkipRegex(d, rest);
    } else {
      assert [] + rest == rest;
    }
  }

  // ---- tables

  predicate NamesDiffer(es: seq<Entry>) { forall i, j :: 0 <= i < j < |es| ==> es[i].key != es[j].key }

  /** One update changes one value of the table, or nothing. */
  lemma UpdateEntries(its: seq<Item>, i: nat, v: Value)
    requires i < |its| && Distinct(its)
    ensures var tag := its[i].field.tag;
      Entries(Update(its, its[i].key, v)) ==
        if NewPay(tag, v).Some? then Entries(its)[i := Entry(Name(its[i].key), Renewed(tag, v))] else Entries(its)
  {
    hide NewPay, Renewed;
    UpdateAt(its, i, v);
  }

  lemma IndexedFits(its: seq<Item>)
    requires Indexed(its)
    ensures AllGood(its) && |Doc(Wire(its))| < 0x8000_0000
  {
  }

  lemma ItemsIndexed(es: seq<Entry>)
    requires Encode(es).Some? && AllSound(es) && NamesDiffer(es) && |Encode(es).value| < 0x400_0000
    ensures EncFields(es, -1, 0).Some? && Indexed(Items(es)) && Entries(Items(es)) == es && Encode(es) == Some(Doc(Wire(Items(es))))
  {
    hide EncFields, Wire, Good, Doc, Entries;
    var its := Items(es);
    DocLength(EncFields(es, -1, 0).value);
    ItemsGood(es);
    forall i, j | 0 <= i < j < |its| ensures its[i].key != its[j].key {
      assert es[i].key != es[j].key && its[i] == ItemOf(es[i]) && its[j] == ItemOf(es[j]);
    }
  }

  /** Encoding a table, indexing it and assigning any number of fields, then decoding: the same as
      making the updates on the table. The document must be below 64 MB. */
  lemma AssignTable(es: seq<Entry>, ops: seq<Op>)
    requires Encode(es).Some? && AllSound(es) && NamesDiffer(es) && |Encode(es).value| < 0x400_0000
    ensures var d := Encode(es).value; var idx := MakeIndex(d);
      && idx.Some?
      && Decode(Assign(d, idx.value, ops)) == Some(Table(Entries(Updates(Items(es), ops))))
      && Entries(Items(es)) == es
  {
    hide Encode, AllSound, Items, Entries, Indexed, AllGood, Marks, MakeIndex, Decode, Doc, Wire, Updates, Assign, NamesDiffer;
    ItemsIndexed(es);
    var its := Items(es);
    IndexedFits(its);
    DocIndex(its);
    AssignIs(its, ops);
    IndexedFits(Updates(its, ops));
    DocRead(Updates(its, ops));
  }
}
