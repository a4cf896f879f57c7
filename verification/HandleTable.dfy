/**
 * The table from service handles to contexts: open slots indexed by the low bits of a 24-bit counter,
 * doubled when full; and the sorted table of service names.
 */
module HandleTable {
  const HANDLE_MASK := 0xffffff
  const HANDLE_SPAN := 0x1000000
  const DEFAULT_SLOT_SIZE := 4
  const MAX_SLOT_SIZE := 0x40000000

  datatype Slot = Free | Taken(ctx: nat, handle: nat)

  datatype Outcome = Registered(handle: nat) | Stopped

  // ---- the counter

  /** 0 is reserved, so the counter goes from the mask to 1. */
  function Norm(h: nat): nat { if h > HANDLE_MASK then 1 else h }

  /** Handle that is tried in round `i` of a scan. */
  function Tried(index: nat, i: nat): nat { if i == 0 then Norm(index) else Norm(Tried(index, i - 1) + 1) }

  lemma {:induction false} TriedIs(index: nat, i: nat)
    requires 1 <= index <= HANDLE_SPAN && i < HANDLE_SPAN - index + HANDLE_MASK
    ensures Tried(index, i) == if index + i <= HANDLE_MASK then index + i else index + i - HANDLE_MASK
  {
    if i > 0 { TriedIs(index, i - 1); }
  }

  lemma TriedStep(index: nat, i: nat)
    ensures Tried(index, i) == Norm(if i == 0 then index else Tried(index, i - 1) + 1)
  {
  }

  lemma {:induction false} TriedRange(index: nat, i: nat)
    requires index >= 1
    ensures 1 <= Tried(index, i) <= HANDLE_MASK
  {
    if i > 0 { TriedRange(index, i - 1); }
  }

  function Pow2(bits: nat): (r: nat)
    ensures r >= 1
  {
    if bits == 0 then 1 else 2 * Pow2(bits - 1)
  }

  lemma {:induction false} Splits(bits: nat, more: nat)
    ensures Pow2(bits + more) == Pow2(bits) * Pow2(more)
  {
    if more > 0 {
      Splits(bits, more - 1);
      Twice(Pow2(bits), Pow2(more - 1));
    }
  }

  lemma Twice(p: nat, q: nat)
    ensures p * (2 * q) == 2 * (p * q)
  {
  }

  lemma SpanIs()
    ensures Pow2(24) == HANDLE_SPAN
  {
    assert Pow2(4) == 16 && Pow2(8) == 256;
    Splits(8, 8);
    Splits(16, 8);
  }

  /** The table size divides the span of the counter. */
  lemma Divides(bits: nat) returns (k: nat)
    requires bits <= 24
    ensures Pow2(bits) * k == HANDLE_SPAN && k >= 1 && Pow2(bits) <= HANDLE_SPAN
  {
    SpanIs();
    Splits(bits, 24 - bits);
    k := Pow2(24 - bits);
    Grows(k, Pow2(bits));
  }

  lemma {:induction false} Grows(k: nat, s: nat)
    requires k >= 1
    ensures k * s >= s
  {
    if k > 1 {
      Grows(k - 1, s);
      assert k * s == (k - 1) * s + s;
    }
  }

  lemma ModOfSum(a: nat, s: nat, q: nat)
    requires 0 <= q < s
    ensures (a * s + q) % s == q
  {
    var d := (a * s + q) / s;
    var r := (a * s + q) % s;
    assert a * s + q == d * s + r;
    assert (a - d) * s == r - q && (d - a) * s == q - r;
    if a > d { Grows(a - d, s); } else if d > a { Grows(d - a, s); }
  }

  lemma ModSmaller(x: nat, s: nat) returns (a: nat)
    requires s > 0
    ensures x == a * s + x % s
  {
    a := x / s;
  }

  /** The harbor number in the high bits does not move a handle. */
  lemma HarborIrrelevant(harbor: nat, local: nat, bits: nat)
    requires bits <= 24
    ensures (harbor * HANDLE_SPAN + local) % Pow2(bits) == local % Pow2(bits)
  {
    var s := Pow2(bits);
    var k := Divides(bits);
    var a := ModSmaller(local, s);
    assert harbor * HANDLE_SPAN == (harbor * k) * s by { assert harbor * (s * k) == (harbor * k) * s; }
    assert harbor * HANDLE_SPAN + local == (harbor * k + a) * s + local % s;
    ModOfSum(harbor * k + a, s, local % s);
  }

  /** After doubling an entry stays or moves by the old size. */
  lemma Halves(x: nat, s: nat)
    requires s > 0
    ensures x % (2 * s) == x % s || x % (2 * s) == x % s + s
  {
    var q := x % s;
    var a := ModSmaller(x, s);
    var b := a / 2;
    if a % 2 == 0 {
      Twice(b, s);
      assert x == b * (2 * s) + q by { assert a * s == (2 * b) * s; }
      ModOfSum(b, 2 * s, q);
    } else {
      Twice(b, s);
      assert x == b * (2 * s) + (q + s) by { assert a * s == (2 * b + 1) * s; }
      ModOfSum(b, 2 * s, q + s);
    }
  }

  /** The scan tries slot 0: the counter does not wrap inside it. */
  predicate TriesZero(index: nat, size: nat) { index + size <= HANDLE_SPAN || (index == HANDLE_SPAN && size <= HANDLE_MASK) }

  lemma IsMod(x: nat, a: nat, s: nat, q: nat)
    requires x == a * s + q && q < s
    ensures x % s == q
  {
    ModOfSum(a, s, q);
  }

  lemma LastBlock(s: nat, k: nat)
    requires k >= 1
    ensures (k - 1) * s == s * k - s
  {
  }

  lemma NextBlock(a: nat, s: nat)
    ensures (a + 1) * s == a * s + s
  {
  }

  /** Without a wrap `s` handles in a row meet every slot. */
  lemma InARow(index: nat, s: nat, q: nat) returns (i: nat)
    requires q < s
    ensures i < s && (index + i) % s == q
  {
    var r := index % s;
    var a := ModSmaller(index, s);
    if q >= r {
      i := q - r;
      IsMod(index + i, a, s, q);
    } else {
      i := q + s - r;
      NextBlock(a, s);
      IsMod(index + i, a + 1, s, q);
    }
  }

  /** A scan tries every slot but 0, and 0 unless the counter wraps inside it. */
  lemma Covers(index: nat, bits: nat, q: nat) returns (i: nat)
    requires 1 <= index <= HANDLE_SPAN && bits <= 24 && q < Pow2(bits) && (q > 0 || TriesZero(index, Pow2(bits)))
    ensures i < Pow2(bits) && Tried(index, i) % Pow2(bits) == q
  {
    hide Tried, Pow2;
    var s := Pow2(bits);
    var k := Divides(bits);
    var d := HANDLE_SPAN - index;
    if d >= s {
      i := InARow(index, s, q);
      TriedIs(index, i);
    } else if q >= s - d && d > 0 {
      i := q - (s - d);
      TriedIs(index, i);
      LastBlock(s, k);
      IsMod(index + i, k - 1, s, q);
    } else if q > 0 {
      i := d + q - 1;
      TriedIs(index, i);
      IsMod(q, 0, s, q);
    } else {
      i := s - 1;
      TriedIs(index, i);
      IsMod(s, 1, s, 0);
    }
  }

  /** When the counter wraps inside the scan, slot 0 is never tried. */
  lemma MissesZero(index: nat, bits: nat, i: nat)
    requires 1 <= index <= HANDLE_SPAN && bits <= 24 && i < Pow2(bits) && !TriesZero(index, Pow2(bits))
    ensures Tried(index, i) % Pow2(bits) != 0
  {
    hide Pow2;
    var s := Pow2(bits);
    var k := Divides(bits);
    var d := HANDLE_SPAN - index;
    if d == 0 && i == HANDLE_MASK {
      TriedRange(index, i);
      IsMod(Tried(index, i), 0, s, Tried(index, i));
    } else if i < d {
      hide Tried;
      TriedIs(index, i);
      LastBlock(s, k);
      IsMod(index + i, k - 1, s, s - d + i);
    } else {
      hide Tried;
      TriedIs(index, i);
      IsMod(index + i - HANDLE_MASK, 0, s, index + i - HANDLE_MASK);
    }
  }

  // ---- names

  type Str = seq<nat>

  datatype Entry = Entry(name: Str, handle: nat)

  /** Order of `strcmp`. */
  predicate Less(a: Str, b: Str) {
    b != [] && (a == [] || a[0] < b[0] || (a[0] == b[0] && Less(a[1..], b[1..])))
  }

  function StrCmp(a: Str, b: Str): int { if a == b then 0 else if Less(a, b) then -1 else 1 }

  lemma {:induction false} Total(a: Str, b: Str)
    ensures a == b || Less(a, b) || Less(b, a)
  {
    if a != [] && b != [] && a[0] == b[0] {
      Total(a[1..], b[1..]);
      assert a == [a[0]] + a[1..] && b == [b[0]] + b[1..];
    }
  }

  lemma {:induction false} Irreflexive(a: Str)
    ensures !Less(a, a)
  {
    if a != [] { Irreflexive(a[1..]); }
  }

  lemma {:induction false} Transitive(a: Str, b: Str, c: Str)
    requires Less(a, b) && Less(b, c)
    ensures Less(a, c)
  {
    if a != [] && a[0] == b[0] && b[0] == c[0] { Transitive(a[1..], b[1..], c[1..]); }
  }

  predicate Sorted(es: seq<Entry>) { forall i, j :: 0 <= i < j < |es| ==> Less(es[i].name, es[j].name) }

  predicate Lists(es: seq<Entry>, n: Str, h: nat) { exists i :: 0 <= i < |es| && es[i] == Entry(n, h) }

  /** `es` lists exactly the names of `book`. */
  ghost predicate Tells(es: seq<Entry>, book: map<Str, nat>) {
    && (forall i :: 0 <= i < |es| ==> es[i].name in book && book[es[i].name] == es[i].handle)
    && (forall n :: n in book ==> Lists(es, n, book[n]))
  }

  /** What is left of the names when `h` retires. */
  function Without(es: seq<Entry>, h: nat): seq<Entry> {
    if es == [] then [] else
    var r := Without(es[..|es| - 1], h);
    if es[|es| - 1].handle == h then r else r + [es[|es| - 1]]
  }

  lemma WithoutNone(h: nat)
    ensures Without([], h) == []
  {
  }

  lemma WithoutStep(es: seq<Entry>, i: nat, h: nat)
    requires i < |es|
    ensures var r := Without(es[..i], h); Without(es[..i + 1], h) == if es[i].handle == h then r else r + [es[i]]
  {
    assert es[..i + 1][..i] == es[..i];
  }

  lemma {:induction false} WithoutKeeps(es: seq<Entry>, h: nat, n: Str, g: nat)
    ensures Lists(Without(es, h), n, g) <==> Lists(es, n, g) && g != h
  {
    if es != [] {
      var m := |es| - 1;
      var r := Without(es[..m], h);
      WithoutKeeps(es[..m], h, n, g);
      if Lists(es, n, g) {
        var i :| 0 <= i < |es| && es[i] == Entry(n, g);
        if i < m { assert es[..m][i] == Entry(n, g); }
        if i == m && g != h { assert (r + [es[m]])[|r|] == Entry(n, g); }
      }
      if Lists(es[..m], n, g) {
        var i :| 0 <= i < m && es[..m][i] == Entry(n, g);
        assert es[i] == Entry(n, g);
      }
      if Lists(r, n, g) {
        var i :| 0 <= i < |r| && r[i] == Entry(n, g);
        assert (r + [es[m]])[i] == Entry(n, g);
      }
      if es[m] == Entry(n, g) { assert Lists(es, n, g); }
      if es[m].handle != h && Lists(r + [es[m]], n, g) {
        var i :| 0 <= i < |r| + 1 && (r + [es[m]])[i] == Entry(n, g);
        assert i < |r| ==> r[i] == Entry(n, g);
      }
    }
  }

  lemma {:induction false} WithoutSorted(es: seq<Entry>, h: nat)
    requires Sorted(es)
    ensures Sorted(Without(es, h)) && |Without(es, h)| <= |es|
  {
    if es != [] {
      var m := |es| - 1;
      var r := Without(es[..m], h);
      WithoutSorted(es[..m], h);
      forall i | 0 <= i < |r| ensures Less(r[i].name, es[m].name) {
        assert Lists(r, r[i].name, r[i].handle);
        WithoutKeeps(es[..m], h, r[i].name, r[i].handle);
      }
    }
  }

  lemma WithoutTells(es: seq<Entry>, h: nat, book: map<Str, nat>, less: map<Str, nat>)
    requires Tells(es, book) && less == LessNames(book, h)
    ensures Tells(Without(es, h), less)
  {
    var r := Without(es, h);
    forall i | 0 <= i < |r| ensures r[i].name in less && less[r[i].name] == r[i].handle {
      assert Lists(r, r[i].name, r[i].handle);
      WithoutKeeps(es, h, r[i].name, r[i].handle);
    }
    forall n | n in less ensures Lists(r, n, less[n]) { WithoutKeeps(es, h, n, less[n]); }
  }

  function Inserted(es: seq<Entry>, e: Entry, b: nat): seq<Entry>
    requires b <= |es|
  {
    es[..b] + [e] + es[b..]
  }

  lemma InsertedSorted(es: seq<Entry>, e: Entry, b: nat)
    requires Sorted(es) && b <= |es|
    requires (forall i :: 0 <= i < b ==> Less(es[i].name, e.name)) && (forall i :: b <= i < |es| ==> Less(e.name, es[i].name))
    ensures Sorted(Inserted(es, e, b))
  {
  }

  lemma InsertedTells(es: seq<Entry>, e: Entry, b: nat, book: map<Str, nat>)
    requires Tells(es, book) && b <= |es| && e.name !in book
    ensures Tells(Inserted(es, e, b), book[e.name := e.handle])
  {
    var r, more := Inserted(es, e, b), book[e.name := e.handle];
    forall i | 0 <= i < |r| ensures r[i].name in more && more[r[i].name] == r[i].handle {
      if i < b { assert r[i] == es[i]; } else if i > b { assert r[i] == es[i - 1]; }
    }
    forall n | n in more ensures Lists(r, n, more[n]) {
      if n == e.name { assert r[b] == e; } else {
        var i :| 0 <= i < |es| && es[i] == Entry(n, book[n]);
        if i < b { assert r[i] == es[i]; } else { assert r[i + 1] == es[i]; }
      }
    }
  }

  method CopyEntries(src: array<Entry>, dst: array<Entry>, from: nat, to: nat, step: nat)
    requires src != dst && from <= to <= src.Length && to + step <= dst.Length
    modifies dst
    ensures dst[from + step..to + step] == src[from..to] && dst[..from + step] == old(dst[..from + step])
  {
    var i := from;
    while i < to
      invariant from <= i <= to && dst[..from + step] == old(dst[..from + step])
      invariant forall k :: from <= k < i ==> dst[k + step] == src[k]
    {
      dst[i + step] := src[i];
      i := i + 1;
    }
  }

  class NameTable {
    var name: array<Entry>
    var count: nat
    ghost var book: map<Str, nat>

    ghost predicate Valid()
      reads this, name
    {
      count <= name.Length && 2 <= name.Length && Sorted(name[..count]) && Tells(name[..count], book)
    }

    constructor ()
      ensures Valid() && fresh(name) && book == map[]
    {
      name := new Entry[2](_ => Entry([], 0));
      count, book := 0, map[];
    }

    /** Binary search: the place of `n`, or the place where it belongs. */
    method Search(n: Str) returns (found: bool, place: nat)
      requires Valid()
      ensures place <= count && found == (n in book)
      ensures found ==> place < count && name[place] == Entry(n, book[n])
      ensures !found ==> (forall i :: 0 <= i < place ==> Less(name[i].name, n)) && (forall i :: place <= i < count ==> Less(n, name[i].name))
    {
      hide Less;
      ghost var es := name[..count];
      var begin: int, end: int := 0, count - 1;
      while begin <= end
        invariant 0 <= begin <= end + 1 <= count
        invariant forall i :: 0 <= i < begin ==> Less(name[i].name, n)
        invariant forall i :: end < i < count ==> Less(n, name[i].name)
      {
        var mid := (begin + end) / 2;
        var c := StrCmp(name[mid].name, n);
        Total(name[mid].name, n);
        assert es[mid] == name[mid];
        if c == 0 {
          return true, mid;
        }
        if c < 0 {
          forall i | 0 <= i <= mid ensures Less(name[i].name, n) {
            if i < mid { assert es[i] == name[i]; Transitive(name[i].name, name[mid].name, n); }
          }
          begin := mid + 1;
        } else {
          forall i | mid <= i < count ensures Less(n, name[i].name) {
            if i > mid { assert es[i] == name[i]; Transitive(n, name[mid].name, name[i].name); }
          }
          end := mid - 1;
        }
      }
      found, place := false, begin;
      Irreflexive(n);
      forall i | 0 <= i < |es| ensures es[i].name != n { assert es[i] == name[i]; }
      assert n in book ==> Lists(es, n, book[n]);
    }

    /** `skynet_handle_findname` */
    method FindName(n: Str) returns (handle: nat)
      requires Valid()
      ensures handle == if n in book then book[n] else 0
    {
      var found, place := Search(n);
      handle := if found then name[place].handle else 0;
    }

    /** There is a hole for a new name at `before`. */
    ghost predicate Hole(es: seq<Entry>, before: nat)
      requires before <= |es|
      reads this, name
    {
      count == |es| < name.Length && name[..before] == es[..before] && name[before + 1..count + 1] == es[before..]
    }

    method Grow(before: nat)
      requires before <= count <= name.Length && 1 <= name.Length
      modifies `name
      ensures fresh(name) && name.Length == 2 * old(name.Length) && Hole(old(name[..count]), before)
    {
      var n := new Entry[name.Length * 2](_ => Entry([], 0));
      CopyEntries(name, n, 0, before, 0);
      CopyEntries(name, n, before, count, 1);
      name := n;
    }

    method Shift(before: nat)
      requires before <= count < name.Length
      modifies name
      ensures Hole(old(name[..count]), before)
    {
      ghost var es := name[..count];
      var i := count;
      while i > before
        invariant before <= i <= count && name[..i] == es[..i] && name[i + 1..count + 1] == es[i..]
      {
        assert name[i - 1] == es[i - 1];
        name[i] := name[i - 1];
        i := i - 1;
      }
    }

    /** `_insert_name_before` */
    method InsertBefore(e: Entry, before: nat)
      requires Valid() && before <= count && (count < name.Length || 2 * name.Length <= MAX_SLOT_SIZE)
      modifies this, name
      ensures 2 <= name.Length && count == old(count) + 1 <= name.Length && (name == old(name) || fresh(name))
      ensures name[..count] == Inserted(old(name[..count]), e, before) && book == old(book)
    {
      hide Sorted, Tells;
      ghost var es := name[..count];
      if count >= name.Length {
        Grow(before);
      } else {
        Shift(before);
      }
      name[before] := e;
      count := count + 1;
      assert name[..count] == name[..before] + [name[before]] + name[before + 1..count];
    }

    /** `skynet_handle_namehandle` with `_insert_name`: a name that is taken is refused. */
    method NameHandle(handle: nat, n: Str) returns (done: bool)
      requires Valid() && (count < name.Length || 2 * name.Length <= MAX_SLOT_SIZE)
      modifies this, name
      ensures Valid() && (name == old(name) || fresh(name)) && done == (n !in old(book))
      ensures book == if done then old(book)[n := handle] else old(book)
    {
      var found, place := Search(n);
      if found {
        return false;
      }
      ghost var es := name[..count];
      InsertedSorted(es, Entry(n, handle), place);
      InsertedTells(es, Entry(n, handle), place, book);
      InsertBefore(Entry(n, handle), place);
      book := book[n := handle];
      done := true;
    }

    /** The loop of `skynet_handle_retire` over the names: what stays moves to the front. */
    method Compact(handle: nat) returns (j: nat)
      requires count <= name.Length
      modifies name
      ensures j <= count && name[..j] == Without(old(name[..count]), handle)
    {
      hide Without;
      ghost var es := name[..count];
      WithoutNone(handle);
      assert es[..0] == [];
      var i := 0;
      j := 0;
      while i < count
        invariant 0 <= j <= i <= count && name[..j] == Without(es[..i], handle)
        invariant forall k :: i <= k < count ==> name[k] == es[k]
      {
        WithoutStep(es, i, handle);
        if name[i].handle != handle {
          name[j] := name[i];
          j := j + 1;
          assert name[..j] == name[..j - 1] + [es[i]];
        }
        i := i + 1;
      }
      assert es[..count] == es;
    }

    method Forget(handle: nat)
      requires Valid()
      modifies this, name
      ensures Valid() && name == old(name)
      ensures book == LessNames(old(book), handle)
    {
      hide Sorted, Tells, Without, LessNames;
      WithoutSorted(name[..count], handle);
      WithoutTells(name[..count], handle, book, LessNames(book, handle));
      count := Compact(handle);
      book := LessNames(book, handle);
    }
  }

  // ---- slots

  function Folded(k: nat, n: nat): nat { if k < n then k else k - n }

  /** The first `i` entries of `es` are in `ms`, each in the slot of its handle, and nothing else is. */
  predicate Moved(es: seq<Slot>, i: nat, ms: seq<Slot>) {
    && |ms| == 2 * |es| && i <= |es|
    && (forall k :: 0 <= k < i ==> es[k].Taken? && ms[es[k].handle % |ms|] == es[k])
    && (forall k :: 0 <= k < |ms| && ms[k].Taken? ==> Folded(k, |es|) < i && es[Folded(k, |es|)] == ms[k] && ms[k].handle % |ms| == k)
  }

  lemma StartMove(es: seq<Slot>, ms: seq<Slot>)
    requires |ms| == 2 * |es| && forall k :: 0 <= k < |ms| ==> ms[k].Free?
    ensures Moved(es, 0, ms)
  {
  }

  lemma MoveOne(es: seq<Slot>, i: nat, ms: seq<Slot>)
    requires Moved(es, i, ms) && i < |es| && es[i].Taken? && es[i].handle % |es| == i
    ensures Moved(es, i + 1, ms[es[i].handle % |ms| := es[i]])
  {
    Halves(es[i].handle, |es|);
    var h := es[i].handle % |ms|;
    assert ms[h].Free?;
  }

  lemma MovedBack(es: seq<Slot>, ms: seq<Slot>, k: nat)
    requires Moved(es, |es|, ms) && k < |ms| && ms[k].Taken?
    ensures Folded(k, |es|) < |es| && ms[k] == es[Folded(k, |es|)] && ms[k].handle % |ms| == k
  {
  }

  lemma MovedOn(es: seq<Slot>, ms: seq<Slot>, k: nat)
    requires Moved(es, |es|, ms) && k < |es|
    ensures es[k].Taken? && ms[es[k].handle % |ms|] == es[k]
  {
  }

  lemma MovedRoom(es: seq<Slot>, ms: seq<Slot>)
    requires Moved(es, |es|, ms) && 2 <= |es|
    ensures ms[1].Free? || ms[1 + |es|].Free?
  {
    if ms[1].Taken? { assert es[Folded(1, |es|)] == ms[1]; }
  }

  /** Slot 0 is free, but a scan misses it, and there is no other. */
  predicate StuckAt(slots: seq<Slot>, index: nat) {
    |slots| > 0 && slots[0].Free? && !TriesZero(index, |slots|) && !HasRoom(slots)
  }

  /** The slot that is tried in round `i` of a scan is free. */
  predicate FreeAt(slots: seq<Slot>, index: nat, i: nat) { |slots| > 0 && slots[Tried(index, i) % |slots|].Free? }

  /** A scan finds its first free slot in round `n`. */
  predicate FirstAt(slots: seq<Slot>, index: nat, n: nat) {
    n < |slots| && FreeAt(slots, index, n) && forall i :: 0 <= i < n ==> !FreeAt(slots, index, i)
  }

  lemma OnlyFirst(slots: seq<Slot>, index: nat, n: nat, m: nat)
    requires FirstAt(slots, index, n) && FirstAt(slots, index, m)
    ensures n == m
  {
    hide FreeAt;
  }

  lemma Unique(slots: seq<Slot>, index: nat, n: nat)
    requires FirstAt(slots, index, n)
    ensures forall m: nat :: FirstAt(slots, index, m) ==> m == n
  {
    forall m: nat | FirstAt(slots, index, m) ensures m == n { OnlyFirst(slots, index, n, m); }
  }

  predicate HasRoom(slots: seq<Slot>) { exists q :: 0 < q < |slots| && slots[q].Free? }

  lemma StuckMeans(slots: seq<Slot>, index: nat)
    ensures StuckAt(slots, index) <==> |slots| > 0 && slots[0].Free? && !TriesZero(index, |slots|) && !HasRoom(slots)
    ensures !HasRoom(slots) <==> forall q :: 0 < q < |slots| ==> slots[q].Taken?
  {
  }

  /** The loop that fills a table of twice the size. */
  method Rehash(slot: array<Slot>) returns (ok: bool, more: array<Slot>)
    requires slot.Length > 0 && forall i :: 0 <= i < slot.Length && slot[i].Taken? ==> slot[i].handle % slot.Length == i
    ensures fresh(more) && ok == forall i :: 0 <= i < slot.Length ==> slot[i].Taken?
    ensures ok ==> Moved(slot[..], slot.Length, more[..])
  {
    hide Moved;
    var n := slot.Length;
    ok, more := false, new Slot[2 * n](_ => Free);
    StartMove(slot[..], more[..]);
    var i := 0;
    while i < n
      invariant 0 <= i <= n && Moved(slot[..], i, more[..]) && forall k :: 0 <= k < i ==> slot[k].Taken?
    {
      if slot[i].Free? {
        return;
      }
      var hash := slot[i].handle % (2 * n);
      MoveOne(slot[..], i, more[..]);
      more[hash] := slot[i];
      i := i + 1;
    }
    ok := true;
  }

  class Storage {
    const harbor: nat
    const names: NameTable
    var index: nat
    var slot: array<Slot>
    ghost var bits: nat
    ghost var live: map<nat, nat>
    ghost var given: set<nat>
    ghost var wrapped: bool

    /** A handle of this harbor that is not 0. */
    ghost predicate Ours(h: nat) {
      exists local :: 1 <= local <= HANDLE_MASK && h == Whole(local)
    }

    ghost function Whole(local: nat): nat { harbor * HANDLE_SPAN + local }

    ghost predicate Sized()
      reads this
    {
      2 <= bits <= 24 && slot.Length == Pow2(bits) && 1 <= index <= HANDLE_SPAN
    }

    ghost predicate Placed(i: nat)
      requires i < slot.Length
      reads this, slot
    {
      slot[i].Taken? ==> slot[i].handle in live && live[slot[i].handle] == slot[i].ctx && slot[i].handle % slot.Length == i
    }

    ghost predicate Found(h: nat)
      requires h in live && slot.Length > 0
      reads this, slot
    {
      Ours(h) && h in given && slot[h % slot.Length] == Taken(live[h], h)
    }

    ghost predicate Valid()
      reads this, slot
    {
      && Sized()
      && (forall i :: 0 <= i < slot.Length ==> Placed(i))
      && (forall h :: h in live ==> Found(h))
      && (!wrapped ==> forall h :: h in given ==> h < Whole(index))
    }

    constructor (harbor: nat)
      ensures Valid() && fresh(slot) && fresh(names) && fresh(names.name) && names.Valid()
      ensures live == map[] && given == {} && !wrapped && this.harbor == harbor && index == 1
      ensures slot.Length == DEFAULT_SLOT_SIZE && forall i :: 0 <= i < slot.Length ==> slot[i].Free?
    {
      this.harbor := harbor;
      slot := new Slot[DEFAULT_SLOT_SIZE](_ => Free);
      index := 1;
      bits, live, given, wrapped := 2, map[], {}, false;
      names := new NameTable();
    }

    /** `skynet_handle_grab` */
    method Grab(handle: nat) returns (ctx: nat, ok: bool)
      requires Valid()
      ensures ok == (handle in live) && (ok ==> ctx == live[handle])
    {
      var s := slot[handle % slot.Length];
      ok := s.Taken? && s.handle == handle;
      assert Placed(handle % slot.Length);
      if handle in live { assert Found(handle); }
      ctx := if ok then s.ctx else 0;
    }

    /** One scan; 0 if every slot that is tried is taken. */
    method Scan() returns (handle: nat, ghost rounds: nat)
      requires Valid()
      ensures handle == 0 ==> forall i :: 0 <= i < slot.Length ==> slot[Tried(index, i) % slot.Length].Taken?
      ensures handle != 0 ==> rounds < slot.Length && handle == Tried(index, rounds) && slot[handle % slot.Length].Free?
      ensures handle != 0 ==> FirstAt(slot[..], index, rounds)
      ensures handle == 0 ==> forall n: nat :: !FirstAt(slot[..], index, n)
    {
      hide Tried;
      var h := index;
      var i := 0;
      while i < slot.Length
        invariant 0 <= i <= slot.Length && h == (if i == 0 then index else Tried(index, i - 1) + 1)
        invariant forall k :: 0 <= k < i ==> slot[Tried(index, k) % slot.Length].Taken?
        invariant forall k :: 0 <= k < i ==> !FreeAt(slot[..], index, k)
      {
        if h > HANDLE_MASK {
          h := 1;
        }
        TriedStep(index, i);
        TriedRange(index, i);
        if slot[h % slot.Length].Free? {
          return h, i;
        }
        i, h := i + 1, h + 1;
      }
      handle, rounds := 0, 0;
    }

    /** What holds of the slots holds of the moved ones. */
    lemma MovedSlots(ms: seq<Slot>)
      requires Valid() && Moved(slot[..], slot.Length, ms)
      ensures |ms| == 2 * slot.Length
      ensures forall k :: 0 <= k < |ms| && ms[k].Taken? ==>
        ms[k].handle in live && live[ms[k].handle] == ms[k].ctx && ms[k].handle % |ms| == k
      ensures forall h :: h in live ==> ms[h % |ms|] == Taken(live[h], h)
    {
      assert |ms| == 2 * slot.Length;
      hide Moved;
      ghost var n := slot.Length;
      forall k | 0 <= k < |ms| && ms[k].Taken?
        ensures ms[k].handle in live && live[ms[k].handle] == ms[k].ctx && ms[k].handle % |ms| == k
      {
        MovedBack(slot[..], ms, k);
        assert Placed(Folded(k, n));
      }
      forall h | h in live ensures ms[h % |ms|] == Taken(live[h], h) {
        assert Found(h);
        MovedOn(slot[..], ms, h % n);
      }
    }

    /** The table of twice the size; it fails where the source would read a null context. */
    method Double() returns (ok: bool)
      requires Valid() && bits < 24
      modifies `slot, `bits
      ensures ok == forall i :: 0 <= i < old(slot.Length) ==> old(slot[i]).Taken?
      ensures !ok ==> slot == old(slot) && bits == old(bits)
      ensures ok ==> Valid() && fresh(slot) && bits == old(bits) + 1 && slot.Length == 2 * old(slot.Length)
      ensures ok ==> Room()
    {
      hide Moved;
      var n := slot.Length;
      forall i | 0 <= i < n && slot[i].Taken? ensures slot[i].handle % n == i { assert Placed(i); }
      var more;
      ok, more := Rehash(slot);
      if ok {
        MovedSlots(more[..]);
        MovedRoom(slot[..], more[..]);
        slot, bits := more, bits + 1;
        assert slot[1].Free? || slot[1 + n].Free?;
      }
    }

    /** The scan misses a free slot 0 because the counter wraps inside it, and finds no other. */
    ghost predicate Stuck()
      reads this, slot
    {
      StuckAt(slot[..], index)
    }

    ghost predicate Room()
      reads this, slot
    {
      HasRoom(slot[..])
    }

    /** A scan that finds nothing has seen every slot, but perhaps slot 0. */
    lemma NothingFree()
      requires Valid() && forall i :: 0 <= i < slot.Length ==> slot[Tried(index, i) % slot.Length].Taken?
      ensures forall q :: 0 < q < slot.Length ==> slot[q].Taken?
      ensures TriesZero(index, slot.Length) ==> slot[0].Taken?
    {
      hide Tried;
      forall q | 0 < q < slot.Length ensures slot[q].Taken? { var i := Covers(index, bits, q); }
      if TriesZero(index, slot.Length) { var i := Covers(index, bits, 0); }
    }

    /** A full-size table has no use for slot 0, because 0 is no handle. */
    lemma FullSize()
      requires Valid() && 2 * slot.Length - 1 > HANDLE_MASK
      ensures slot[0].Free? && !TriesZero(index, slot.Length)
    {
      var k := Divides(bits);
      if k > 1 { Twice(slot.Length, 1); Splits(bits, 1); var j := Divides(if bits < 24 then bits + 1 else bits); SpanIs(); }
      assert slot.Length == HANDLE_SPAN;
      assert Placed(0);
      if slot[0].Taken? {
        assert Found(slot[0].handle);
        NoMultiple(slot[0].handle);
      }
    }

    lemma NoMultiple(h: nat)
      requires Ours(h)
      ensures h % HANDLE_SPAN != 0
    {
      var local :| 1 <= local <= HANDLE_MASK && h == Whole(local);
      IsMod(h, harbor, HANDLE_SPAN, local);
    }

    /** A scan that finds a free slot is not stuck. */
    lemma Unstuck(rounds: nat)
      requires Valid() && rounds < slot.Length && slot[Tried(index, rounds) % slot.Length].Free?
      ensures !Stuck()
    {
      hide Tried, TriesZero;
      if !TriesZero(index, slot.Length) { MissesZero(index, bits, rounds); }
    }

    /** A handle that was tried is new, unless the counter has wrapped. */
    lemma Later(rounds: nat)
      requires Valid() && rounds < slot.Length
      ensures var local := Tried(index, rounds);
        1 <= local <= HANDLE_MASK && (local >= index || index + slot.Length > HANDLE_SPAN)
      ensures Tried(index, rounds) % slot.Length == Whole(Tried(index, rounds)) % slot.Length
    {
      hide Tried;
      TriedRange(index, rounds);
      HarborIrrelevant(harbor, Tried(index, rounds), bits);
      var k := Divides(bits);
      if index + rounds <= HANDLE_MASK { TriedIs(index, rounds); }
    }

    method Put(local: nat, ctx: nat, ghost rounds: nat) returns (r: Outcome)
      requires Valid() && rounds < slot.Length && local == Tried(index, rounds) && slot[local % slot.Length].Free?
      modifies this, slot
      ensures Valid() && slot == old(slot) && r.Registered?
      ensures Ours(r.handle) && r.handle !in old(live) && live == old(live)[r.handle := ctx]
      ensures given == old(given) + {r.handle} && (!wrapped ==> r.handle !in old(given))
      ensures index == local + 1 && r.handle == Whole(local)
      ensures slot[..] == old(slot[..])[local % slot.Length := Taken(ctx, r.handle)]
      ensures wrapped ==> old(wrapped) || old(index) + slot.Length > HANDLE_SPAN
    {
      hide Tried;
      Later(rounds);
      var handle := harbor * HANDLE_SPAN + local;
      assert handle in live ==> Found(handle);
      ghost var at := local % slot.Length;
      label Before:
      slot[local % slot.Length] := Taken(ctx, handle);
      wrapped := wrapped || local < index;
      index := local + 1;
      live := live[handle := ctx];
      given := given + {handle};
      forall i | 0 <= i < slot.Length ensures Placed(i) { assert old@Before(Placed(i)); }
      forall h | h in live ensures Found(h) { assert h != handle ==> old@Before(Found(h)); }
      r := Registered(handle);
    }

    lemma Smaller()
      requires Valid() && 2 * slot.Length - 1 <= HANDLE_MASK
      ensures 0 < slot.Length && bits < 24
    {
      SpanIs();
    }

    lemma PlacedAll()
      requires Valid()
      ensures 0 < slot.Length && forall i :: 0 <= i < slot.Length ==> Placed(i)
    {
    }

    /** `skynet_handle_register`. It stops, at an assertion or a null context, exactly when stuck. */
    method Register(ctx: nat) returns (r: Outcome)
      requires Valid()
      modifies this, slot
      ensures Valid() && (slot == old(slot) || fresh(slot))
      ensures r.Stopped? <==> old(Stuck())
      ensures r.Stopped? ==> live == old(live) && given == old(given)
      ensures r.Registered? ==> Ours(r.handle) && r.handle !in old(live) && live == old(live)[r.handle := ctx]
      ensures r.Registered? ==> given == old(given) + {r.handle} && (!wrapped ==> r.handle !in old(given))
      ensures r.Registered? ==> index > 1 && r.handle == Whole(index - 1)
      ensures forall n: nat :: FirstAt(old(slot[..]), old(index), n) ==>
        && r.Registered? && slot == old(slot) && index == Tried(old(index), n) + 1
        && slot[..] == old(slot[..])[Tried(old(index), n) % slot.Length := Taken(ctx, r.handle)]
      ensures wrapped ==> old(wrapped) || old(index) + slot.Length > HANDLE_SPAN
    {
      hide Valid, Tried, TriesZero, StuckAt, HasRoom, FirstAt;
      StuckMeans(slot[..], index);
      while true
        invariant Valid() && unchanged(`index, `live, `given, `wrapped)
        invariant (slot == old(slot) && slot[..] == old(slot[..])) || (fresh(slot) && Room() && !old(Stuck()))
        invariant slot != old(slot) ==> forall n: nat :: !FirstAt(old(slot[..]), index, n)
        decreases 24 - bits
      {
        ghost var rounds;
        var local;
        local, rounds := Scan();
        if local != 0 {
          Unstuck(rounds);
          Unique(slot[..], index, rounds);
          r := Put(local, ctx, rounds);
          return;
        }
        NothingFree();
        StuckMeans(slot[..], index);
        if 2 * slot.Length - 1 > HANDLE_MASK {
          FullSize();
          return Stopped;
        }
        Smaller();
        label Before:
        var ok := Double();
        if !ok {
          return Stopped;
        }
      }
    }

    /** The slot part of `skynet_handle_retire`. */
    method Vacate(handle: nat) returns (done: bool)
      requires Valid()
      modifies slot, `live
      ensures Valid() && done == (handle in old(live)) && live == old(live) - {handle}
      ensures forall i :: 0 <= i < slot.Length ==> slot[i].Free? || slot[i] == old(slot[i])
      ensures slot[handle % slot.Length].Free? || slot[handle % slot.Length].handle != handle
      ensures slot[..] == if done then old(slot[..])[handle % slot.Length := Free] else old(slot[..])
    {
      var hash := handle % slot.Length;
      var s := slot[hash];
      done := s.Taken? && s.handle == handle;
      assert Placed(hash);
      assert handle in live ==> Found(handle);
      label Before:
      if done {
        slot[hash] := Free;
        live := live - {handle};
        forall i | 0 <= i < slot.Length ensures Placed(i) { assert old@Before(Placed(i)); }
        forall h | h in live ensures Found(h) { assert old@Before(Found(h)); }
      }
    }

    /** `skynet_handle_retire`: the context goes and all its names with it. */
    method Retire(handle: nat) returns (done: bool)
      requires Valid() && names.Valid()
      modifies slot, `live, names, names.name
      ensures Valid() && names.Valid() && names.name == old(names.name) && done == (handle in old(live))
      ensures live == old(live) - {handle}
      ensures names.book == if done then LessNames(old(names.book), handle) else old(names.book)
      ensures forall i :: 0 <= i < slot.Length ==> slot[i].Free? || slot[i] == old(slot[i])
      ensures slot.Length > 0 && (slot[handle % slot.Length].Free? || slot[handle % slot.Length].handle != handle)
    {
      hide Sized, Placed, Found, Sorted, Tells, LessNames;
      PlacedAll();
      done := Vacate(handle);
      if done {
        names.Forget(handle);
      }
    }

    lemma Empty()
      requires Valid() && forall i :: 0 <= i < slot.Length ==> slot[i].Free?
      ensures live == map[]
    {
      assert forall h :: h in live ==> Found(h);
    }

    /** `skynet_handle_retireall` */
    method RetireAll()
      requires Valid() && names.Valid()
      modifies slot, `live, names, names.name
      ensures Valid() && names.Valid() && live == map[]
      ensures names.book == map n | n in old(names.book) && old(names.book)[n] !in old(live) :: old(names.book)[n]
    {
      hide Valid, NameTable.Valid, LessNames, Retired;
      RetiredMeans(live, names.book, live, names.book);
      ghost var left := 1;
      while true
        invariant Valid() && names.Valid() && names.name == old(names.name) && Retired(old(live), old(names.book), live, names.book)
        invariant left == 0 ==> forall k :: 0 <= k < slot.Length ==> slot[k].Free?
        decreases left
      {
        var n := Pass();
        Empty();
        if n == 0 {
          RetiredMeans(old(live), old(names.book), live, names.book);
          return;
        }
        left := 0;
      }
    }

    /** One pass of `skynet_handle_retireall` over the slots. */
    method Pass() returns (n: nat)
      requires Valid() && names.Valid()
      modifies slot, `live, names, names.name
      ensures Valid() && names.Valid() && names.name == old(names.name)
      ensures forall k :: 0 <= k < slot.Length ==> slot[k].Free?
      ensures (forall k :: 0 <= k < slot.Length ==> old(slot[k]).Free?) ==> n == 0
      ensures forall l, b :: Retired(l, b, old(live), old(names.book)) ==> Retired(l, b, live, names.book)
    {
      hide Valid, NameTable.Valid, LessNames, Retired;
      var i := 0;
      n := 0;
      while i < slot.Length
        invariant i <= slot.Length && Valid() && names.Valid() && names.name == old(names.name)
        invariant forall k :: 0 <= k < slot.Length ==> slot[k].Free? || slot[k] == old(slot[k])
        invariant forall k :: 0 <= k < i ==> slot[k].Free?
        invariant n == 0 || exists k :: 0 <= k < slot.Length && old(slot[k]).Taken?
        invariant forall l, b :: Retired(l, b, old(live), old(names.book)) ==> Retired(l, b, live, names.book)
      {
        if slot[i].Taken? {
          PlacedAll();
          assert Placed(i);
          ghost var live0, book0 := live, names.book;
          var done := Retire(slot[i].handle);
          forall l, b | Retired(l, b, live0, book0) ensures Retired(l, b, live, names.book) {
            RetiredOne(l, b, live0, book0, old(slot[i]).handle);
          }
          if done {
            n := n + 1;
          }
        }
        i := i + 1;
      }
    }
  }

  /** The four slots while three services live on and the counter stands at `index`. */
  ghost predicate ThreeLive(s: Storage, index: nat)
    reads s, s.slot
  {
    && s.Valid() && s.slot.Length == 4 && s.index == index
    && s.slot[0].Free? && s.slot[1].Taken? && s.slot[2].Taken? && s.slot[3].Taken?
  }

  /** A scan that starts at slot 0 or 1 of such a table ends at slot 0. */
  lemma ReachesZero(s: Storage, index: nat, n: nat)
    requires ThreeLive(s, index) && 1 <= index && index + n <= HANDLE_MASK
    requires if n == 0 then index % 4 == 0 else n == 3 && index % 4 == 1
    ensures FirstAt(s.slot[..], index, n) && Tried(index, n) == index + n
  {
    hide Tried;
    forall i | 0 <= i <= n ensures Tried(index, i) == index + i { TriedIs(index, i); }
  }

  /** A service is started in slot 0 and stopped again. */
  method StartStop(s: Storage, ghost n: nat)
    requires ThreeLive(s, s.index) && 1 <= s.index && s.index + n <= HANDLE_MASK
    requires if n == 0 then s.index % 4 == 0 else n == 3 && s.index % 4 == 1
    modifies s, s.slot
    ensures s.slot == old(s.slot) && ThreeLive(s, old(s.index) + n + 1)
  {
    hide Tried, FirstAt, TriesZero, StuckAt, HasRoom, Storage.Valid;
    ReachesZero(s, s.index, n);
    var r := s.Register(0);
    ZeroHandle(s);
    var _ := s.Vacate(r.handle);
  }

  lemma ZeroHandle(s: Storage)
    requires s.Valid() && s.slot.Length == 4 && s.slot[0].Taken?
    ensures s.slot[0].handle % 4 == 0
  {
    assert s.Placed(0);
  }

  lemma Free0(s: Storage)
    requires s.Valid() && 1 <= s.index <= 3 && s.slot.Length == 4 && s.slot[s.index].Free?
    ensures FirstAt(s.slot[..], s.index, 0) && Tried(s.index, 0) == s.index
  {
  }

  /** With three services that live on, a fourth one started and stopped again and again brings the
      counter to its end, and the next registration is stuck although slot 0 is free. */
  method WearOut(harbor: nat) returns (s: Storage)
    ensures fresh(s) && s.Valid() && s.Stuck()
  {
    hide Tried, FirstAt, Storage.Valid;
    s := new Storage(harbor);
    Free0(s);
    var r := s.Register(0);
    Free0(s);
    r := s.Register(0);
    Free0(s);
    r := s.Register(0);
    StartStop(s, 0);
    while s.index < 0xfffffd
      invariant fresh(s) && fresh(s.slot) && ThreeLive(s, s.index) && 5 <= s.index <= 0xfffffd && s.index % 4 == 1
      decreases 0xfffffd - s.index
    {
      StartStop(s, 3);
    }
    StuckMeans(s.slot[..], s.index);
  }

  lemma RetiredMeans(live0: map<nat, nat>, book0: map<Str, nat>, live: map<nat, nat>, book: map<Str, nat>)
    ensures live == live0 && book == book0 ==> Retired(live0, book0, live, book)
    ensures live == map[] && Retired(live0, book0, live, book) ==> book == map n | n in book0 && book0[n] !in live0 :: book0[n]
  {
  }

  lemma RetiredOne(l: map<nat, nat>, b: map<Str, nat>, live: map<nat, nat>, book: map<Str, nat>, h: nat)
    requires Retired(l, b, live, book) && h in live
    ensures Retired(l, b, live - {h}, LessNames(book, h))
  {
  }

  function LessNames(book: map<Str, nat>, h: nat): map<Str, nat> { map n | n in book && book[n] != h :: book[n] }

  /** Every handle that has gone has lost its names. */
  ghost predicate Retired(live0: map<nat, nat>, book0: map<Str, nat>, live: map<nat, nat>, book: map<Str, nat>) {
    && (forall h :: h in live ==> h in live0)
    && book == map n | n in book0 && !(book0[n] in live0 && book0[n] !in live) :: book0[n]
  }
}
