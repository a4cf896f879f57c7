/**
 * The read-only table of `sharedata`: an array part and a closed hash whose collisions are chained
 * through the free slots. It is filled in two passes over the source table and then only read.
 */
module ShareData {
  import opened Words

  /** The value type and the union value; what a nested table points to does not matter here. */
  datatype Value = Value(kind: nat, payload: int)

  /** Keys of a Lua table that can be shared. */
  datatype Key = Num(i: int) | Str(s: string)

  datatype Entry = Entry(key: Key, value: Value)

  datatype Slot = Free | Node(key: Key, value: Value, khash: nat, next: int, nocolliding: bool)

  const WORD := 0x1_0000_0000

  /** An integer key is cut to the C type int. */
  function Narrow(k: Key): Key {
    match k
    case Num(i) => Num((i + 0x8000_0000) % WORD - 0x8000_0000)
    case Str(_) => k
  }

  predicate Fits(k: Key) { k.Num? ==> -0x8000_0000 <= k.i < 0x8000_0000 }

  lemma NarrowFits(k: Key)
    ensures Fits(Narrow(k)) && (Narrow(k) == k <==> Fits(k))
  {
  }

  type StrHash = string -> nat

  function Hash(sh: StrHash, k: Key): nat {
    match k
    case Num(i) => i % WORD
    case Str(s) => sh(s)
  }

  predicate InArray(k: Key, sizearray: nat) { k.Num? && 0 < k.i <= sizearray }

  predicate DistinctKeys(es: seq<Entry>) { forall i, j :: 0 <= i < j < |es| ==> es[i].key != es[j].key }

  // ---- the filled hash, as values

  /** Slot `s` holds entry `own[s]`, or nothing when that is negative. */
  predicate SlotFits(sh: StrHash, es: seq<Entry>, n: nat, hash: seq<Slot>, own: seq<int>, s: nat)
    requires s < |hash| == |own|
  {
    && own[s] < |es|
    && (own[s] < 0 <==> hash[s].Free?)
    && (own[s] >= 0 ==>
          var k := Narrow(es[own[s]].key);
          !InArray(k, n) && hash[s].key == k && hash[s].value == es[own[s]].value && hash[s].khash == Hash(sh, k))
  }

  predicate Owned(sh: StrHash, es: seq<Entry>, n: nat, hash: seq<Slot>, own: seq<int>) {
    && |own| == |hash|
    && (forall s :: 0 <= s < |hash| ==> SlotFits(sh, es, n, hash, own, s))
    && (forall s, t :: 0 <= s < t < |hash| && own[s] >= 0 ==> own[s] != own[t])
  }

  lemma OwnPut(sh: StrHash, es: seq<Entry>, n: nat, hash: seq<Slot>, own: seq<int>, s: nat, i: nat, x: Slot)
    requires Owned(sh, es, n, hash, own) && s < |hash| && hash[s].Free? && i < |es| && i !in own
    requires var k := Narrow(es[i].key);
      !InArray(k, n) && x.Node? && x.key == k && x.value == es[i].value && x.khash == Hash(sh, k)
    ensures Owned(sh, es, n, hash[s := x], own[s := i])
  {
    var hash', own' := hash[s := x], own[s := i];
    forall t | 0 <= t < |hash| ensures SlotFits(sh, es, n, hash', own', t) {
      assert SlotFits(sh, es, n, hash, own, t);
    }
  }

  lemma OwnLink(sh: StrHash, es: seq<Entry>, n: nat, hash: seq<Slot>, own: seq<int>, s: nat, next: int)
    requires Owned(sh, es, n, hash, own) && s < |hash| && hash[s].Node?
    ensures Owned(sh, es, n, hash[s := hash[s].(next := next, nocolliding := false)], own)
  {
    var hash' := hash[s := hash[s].(next := next, nocolliding := false)];
    forall t | 0 <= t < |hash| ensures SlotFits(sh, es, n, hash', own, t) {
      assert SlotFits(sh, es, n, hash, own, t);
    }
  }

  /** Main position of the node in slot `s`. */
  function Main(hash: seq<Slot>, s: nat): nat
    requires s < |hash| && hash[s].Node?
  {
    hash[s].khash % |hash|
  }

  predicate Heads(hash: seq<Slot>, m: nat)
    requires m < |hash|
  {
    hash[m].Node? && Main(hash, m) == m
  }

  predicate LinkFits(hash: seq<Slot>, m: nat, c: seq<nat>, k: nat)
    requires k < |c|
  {
    && c[k] < |hash| && hash[c[k]].Node? && Main(hash, c[k]) == m && (k > 0 ==> c[k] != m)
    && hash[c[k]].next == if k + 1 < |c| then c[k + 1] else -1
  }

  /** `c` lists the slots of the nodes with main position `m`, in the order of their links. */
  predicate ChainFits(hash: seq<Slot>, m: nat, c: seq<nat>)
    requires m < |hash|
  {
    && (c != [] <==> Heads(hash, m))
    && (c != [] ==> c[0] == m && (hash[m].nocolliding ==> |c| == 1))
    && (forall k :: 0 <= k < |c| ==> LinkFits(hash, m, c, k))
  }

  predicate OnChain(hash: seq<Slot>, ch: seq<seq<nat>>, s: nat)
    requires s < |hash| == |ch|
  {
    hash[s].Node? ==> s in ch[Main(hash, s)] && (hash[s].nocolliding ==> Main(hash, s) == s)
  }

  predicate Chained(hash: seq<Slot>, ch: seq<seq<nat>>) {
    && |ch| == |hash|
    && (forall m :: 0 <= m < |hash| ==> ChainFits(hash, m, ch[m]))
    && (forall s :: 0 <= s < |hash| ==> OnChain(hash, ch, s))
  }

  /** Putting a node into a free main position. */
  lemma PutHead(hash: seq<Slot>, ch: seq<seq<nat>>, m: nat, x: Slot)
    requires Chained(hash, ch) && m < |hash| && hash[m].Free?
    requires x.Node? && x.khash % |hash| == m && x.next == -1 && x.nocolliding
    ensures Chained(hash[m := x], ch[m := [m]])
  {
    var hash', ch' := hash[m := x], ch[m := [m]];
    forall q | 0 <= q < |hash| ensures ChainFits(hash', q, ch'[q]) {
      if q != m {
        assert ChainFits(hash, q, ch[q]);
        forall k | 0 <= k < |ch[q]| ensures LinkFits(hash', q, ch[q], k) { assert LinkFits(hash, q, ch[q], k); }
      } else {
        assert LinkFits(hash', m, [m], 0);
      }
    }
    forall s | 0 <= s < |hash| ensures OnChain(hash', ch', s) {
      assert OnChain(hash, ch, s) && ChainFits(hash, m, ch[m]);
    }
  }

  lemma LinksBehind(hash: seq<Slot>, m: nat, c: seq<nat>, f: nat, x: Slot)
    requires m < |hash| && f < |hash| && Heads(hash, m) && ChainFits(hash, m, c) && hash[f].Free?
    requires x.Node? && x.khash % |hash| == m && x.next == hash[m].next && !x.nocolliding
    ensures ChainFits(hash[m := hash[m].(next := f, nocolliding := false)][f := x], m, [m, f] + c[1..])
  {
    var hash' := hash[m := hash[m].(next := f, nocolliding := false)][f := x];
    var c' := [m, f] + c[1..];
    assert LinkFits(hash, m, c, 0);
    forall k | 0 <= k < |c'| ensures LinkFits(hash', m, c', k) {
      if k >= 2 { assert LinkFits(hash, m, c, k - 1); }
    }
  }

  /** Chaining a node from the free slot `f` behind the head of its chain. */
  lemma PutBehind(hash: seq<Slot>, ch: seq<seq<nat>>, m: nat, f: nat, x: Slot)
    requires Chained(hash, ch) && m < |hash| && f < |hash| && Heads(hash, m) && hash[f].Free?
    requires x.Node? && x.khash % |hash| == m && x.next == hash[m].next && !x.nocolliding
    ensures Chained(hash[m := hash[m].(next := f, nocolliding := false)][f := x], ch[m := [m, f] + ch[m][1..]])
  {
    var hash' := hash[m := hash[m].(next := f, nocolliding := false)][f := x];
    var c := [m, f] + ch[m][1..];
    var ch' := ch[m := c];
    assert ChainFits(hash, m, ch[m]);
    LinksBehind(hash, m, ch[m], f, x);
    forall q | 0 <= q < |hash| && q != m ensures ChainFits(hash', q, ch'[q]) {
      assert ChainFits(hash, q, ch[q]);
      forall k | 0 <= k < |ch[q]| ensures LinkFits(hash', q, ch[q], k) { assert LinkFits(hash, q, ch[q], k); }
    }
    forall s | 0 <= s < |hash| ensures OnChain(hash', ch', s) {
      assert OnChain(hash, ch, s);
      if s == f {
        assert c[1] == f;
      } else if hash[s].Node? && Main(hash, s) == m {
        var k :| 0 <= k < |ch[m]| && ch[m][k] == s;
        assert if k == 0 then c[0] == s else c[k + 1] == s;
      }
    }
  }

  // ---- the source table

  function Get(es: seq<Entry>, k: Key): Option<Value> {
    if es == [] then None else if es[0].key == k then Some(es[0].value) else Get(es[1..], k)
  }

  lemma {:induction false} GetMeans(es: seq<Entry>, k: Key)
    requires DistinctKeys(es)
    ensures forall i :: 0 <= i < |es| && es[i].key == k ==> Get(es, k) == Some(es[i].value)
    ensures (forall i :: 0 <= i < |es| ==> es[i].key != k) ==> Get(es, k) == None
  {
    if es != [] {
      GetMeans(es[1..], k);
      assert forall i :: 0 < i < |es| ==> es[i] == es[1..][i - 1];
    }
  }

  lemma {:induction false} GetFrom(es: seq<Entry>, k: Key) returns (j: nat)
    requires Get(es, k).Some?
    ensures j < |es| && es[j].key == k && Get(es, k) == Some(es[j].value)
  {
    if es[0].key == k {
      j := 0;
    } else {
      var i := GetFrom(es[1..], k);
      j := i + 1;
    }
  }

  /** Entries that `countsize` counts for the hash part. */
  function Counted(es: seq<Entry>, n: nat): set<nat> { set i: nat | i < |es| && !InArray(es[i].key, n) }

  lemma CountedMember(es: seq<Entry>, n: nat, i: nat)
    requires i < |es| && !InArray(es[i].key, n)
    ensures |Counted(es, n)| > 0
  {
    assert i in Counted(es, n);
  }

  /** `countsize` */
  method CountSize(es: seq<Entry>, sizearray: nat) returns (n: nat)
    ensures n == |Counted(es, sizearray)|
  {
    n := 0;
    var i: nat := 0;
    assert Counted(es[..0], sizearray) == {};
    while i < |es|
      invariant i <= |es| && n == |Counted(es[..i], sizearray)|
    {
      n := n + 1;
      if es[i].key.Num? && es[i].key.i > 0 && es[i].key.i <= sizearray {
        n := n - 1;
        assert Counted(es[..i + 1], sizearray) == Counted(es[..i], sizearray);
      } else {
        assert Counted(es[..i + 1], sizearray) == Counted(es[..i], sizearray) + {i};
      }
      i := i + 1;
    }
    assert es[..i] == es;
  }

  /** Entries that both passes treat as hash keys; they were all counted. */
  predicate Hashed(es: seq<Entry>, n: nat, i: nat) { i < |es| && !InArray(Narrow(es[i].key), n) }

  lemma HashedCounted(es: seq<Entry>, n: nat, i: nat)
    requires Hashed(es, n, i) && n < 0x8000_0000
    ensures i in Counted(es, n)
  {
    NarrowFits(es[i].key);
  }

  function MainOf(sh: StrHash, es: seq<Entry>, size: nat, i: nat): nat
    requires i < |es| && size > 0
  {
    Hash(sh, Narrow(es[i].key)) % size
  }

  /** Used slots and placed entries correspond. */
  ghost predicate Paired(own: seq<int>, used: set<nat>, placed: set<nat>) {
    && (forall s: nat :: s in used <==> s < |own| && own[s] >= 0)
    && (forall s: nat :: s in used ==> own[s] as int in placed)
    && (forall j :: j in placed ==> j in own)
    && |used| == |placed|
  }

  lemma UsedOwns(own: seq<int>, used: set<nat>, placed: set<nat>, s: nat)
    requires Paired(own, used, placed) && s < |own|
    ensures s in used <==> own[s] >= 0
  {
  }

  lemma PairedPut(own: seq<int>, used: set<nat>, placed: set<nat>, s: nat, i: nat)
    requires Paired(own, used, placed) && s < |own| && own[s] < 0 && i !in placed
    ensures Paired(own[s := i], used + {s}, placed + {i}) && i !in own
  {
    var own' := own[s := i];
    assert own'[s] == i;
    forall j | j in placed ensures j in own' {
      var t :| 0 <= t < |own| && own[t] == j;
      assert own'[t] == j;
    }
  }

  lemma PairedEmpty(own: seq<int>)
    requires forall s :: 0 <= s < |own| ==> own[s] < 0
    ensures Paired(own, {}, {})
  {
  }

  lemma SlotsLeft(own: seq<int>, used: set<nat>, placed: set<nat>, counted: set<nat>, i: nat)
    requires Paired(own, used, placed) && placed <= counted && i in counted && i !in placed && |counted| == |own|
    ensures exists s: nat :: s < |own| && s !in used
  {
    Smaller(placed, counted, i);
    if forall s: nat :: s < |own| ==> s in used {
      AllBelow(|own|, used);
    }
  }

  lemma Smaller(a: set<nat>, b: set<nat>, x: nat)
    requires a <= b && x in b && x !in a
    ensures |a| < |b|
  {
    Subset(a, b - {x});
  }

  lemma {:induction false} Subset(a: set<nat>, b: set<nat>)
    requires a <= b
    ensures |a| <= |b|
  {
    if a != {} {
      var y :| y in a;
      Subset(a - {y}, b - {y});
    }
  }

  lemma {:induction false} AllBelow(n: nat, s: set<nat>)
    requires forall k: nat :: k < n ==> k in s
    ensures |s| >= n
  {
    if n > 0 { AllBelow(n - 1, s - {n - 1}); }
  }

  /** The array part after the entries before `i`: each slot is nil or comes from one of them. */
  ghost predicate ArrayFits(arr: seq<Option<Value>>, es: seq<Entry>, i: nat)
    requires i <= |es|
  {
    && (forall q :: 0 <= q < |arr| && arr[q].Some? ==>
          exists j :: 0 <= j < i && Narrow(es[j].key) == Num(q + 1) && es[j].value == arr[q].value)
    && (forall j :: 0 <= j < i && InArray(Narrow(es[j].key), |arr|) ==> arr[Narrow(es[j].key).i - 1].Some?)
  }

  lemma NothingStored(arr: seq<Option<Value>>, es: seq<Entry>)
    requires forall q :: 0 <= q < |arr| ==> arr[q].None?
    ensures ArrayFits(arr, es, 0)
  {
  }

  lemma ArrayPut(arr: seq<Option<Value>>, es: seq<Entry>, i: nat)
    requires i < |es| && ArrayFits(arr, es, i) && InArray(Narrow(es[i].key), |arr|)
    ensures ArrayFits(arr[Narrow(es[i].key).i - 1 := Some(es[i].value)], es, i + 1)
  {
    hide Narrow;
  }

  lemma ArraySkip(arr: seq<Option<Value>>, es: seq<Entry>, i: nat)
    requires i < |es| && ArrayFits(arr, es, i) && !InArray(Narrow(es[i].key), |arr|)
    ensures ArrayFits(arr, es, i + 1)
  {
    hide Narrow;
  }

  lemma NothingOwned(sh: StrHash, es: seq<Entry>, n: nat, hash: seq<Slot>, own: seq<int>)
    requires Owned(sh, es, n, hash, own) && forall s :: 0 <= s < |hash| ==> hash[s].Free?
    ensures |own| == |hash| && forall s :: 0 <= s < |own| ==> own[s] < 0
  {
    forall s | 0 <= s < |own| ensures own[s] < 0 { assert SlotFits(sh, es, n, hash, own, s); }
  }

  lemma EmptyTable(sh: StrHash, es: seq<Entry>, n: nat, hash: seq<Slot>, own: seq<int>, ch: seq<seq<nat>>)
    requires |hash| == |own| == |ch|
    requires forall s :: 0 <= s < |hash| ==> hash[s].Free? && own[s] == -1 && ch[s] == []
    ensures Owned(sh, es, n, hash, own) && Chained(hash, ch)
  {
  }

  lemma FreeNotOwned(sh: StrHash, es: seq<Entry>, n: nat, hash: seq<Slot>, own: seq<int>, s: nat)
    requires Owned(sh, es, n, hash, own) && s < |hash| && hash[s].Free?
    ensures own[s] < 0
  {
    assert SlotFits(sh, es, n, hash, own, s);
  }

  // ---- the two passes

  ghost predicate Filled(sh: StrHash, es: seq<Entry>, n: nat, hash: seq<Slot>, own: seq<int>, ch: seq<seq<nat>>,
                         used: set<nat>, placed: set<nat>) {
    && |hash| > 0 && |own| == |hash| && Owned(sh, es, n, hash, own) && Chained(hash, ch)
    && Paired(own, used, placed) && placed <= Counted(es, n)
    && (forall j :: j in placed ==> Hashed(es, n, j))
  }

  /** After the entries before `i` in the first pass. */
  ghost predicate Pass1(sh: StrHash, es: seq<Entry>, n: nat, hash: seq<Slot>, own: seq<int>, placed: set<nat>, i: nat) {
    && |hash| > 0 && |own| == |hash|
    && (forall j :: j in placed ==> j < i && j < |es| && own[MainOf(sh, es, |hash|, j)] == j)
    && (forall s :: 0 <= s < |hash| && hash[s].Node? ==> Heads(hash, s))
    && (forall j :: 0 <= j < i && Hashed(es, n, j) ==> hash[MainOf(sh, es, |hash|, j)].Node?)
    && (forall s :: 0 <= s < |hash| && own[s] >= 0 ==> OwnedFirst(sh, es, n, own, s))
  }

  /** Entry `i` is the first that is hashed to its main position. */
  predicate FirstAt(sh: StrHash, es: seq<Entry>, n: nat, size: nat, i: nat)
    requires size > 0
  {
    Hashed(es, n, i)
    && forall k :: 0 <= k < i && Hashed(es, n, k) ==> MainOf(sh, es, size, k) != MainOf(sh, es, size, i)
  }

  predicate OwnedFirst(sh: StrHash, es: seq<Entry>, n: nat, own: seq<int>, s: nat)
    requires s < |own|
  {
    own[s] >= 0 && FirstAt(sh, es, n, |own|, own[s]) && MainOf(sh, es, |own|, own[s]) == s
  }

  /** Entry `j` finds its key, cut to 32 bits, at its main position already and is left out. */
  predicate Lost(sh: StrHash, es: seq<Entry>, n: nat, size: nat, j: nat)
    requires size > 0 && j < |es|
  {
    exists i :: 0 <= i < j && FirstAt(sh, es, n, size, i) && Narrow(es[i].key) == Narrow(es[j].key)
  }

  lemma NothingFilled(sh: StrHash, es: seq<Entry>, n: nat, hash: seq<Slot>, own: seq<int>, ch: seq<seq<nat>>)
    requires |hash| > 0 && Owned(sh, es, n, hash, own) && Chained(hash, ch)
    requires forall s :: 0 <= s < |hash| ==> hash[s].Free?
    ensures Filled(sh, es, n, hash, own, ch, {}, {}) && Pass1(sh, es, n, hash, own, {}, 0)
  {
    NothingOwned(sh, es, n, hash, own);
    PairedEmpty(own);
  }

  /** An entry that puts nothing into the hash: it is for the array, or its main position is taken. */
  lemma Pass1Skip(sh: StrHash, es: seq<Entry>, n: nat, hash: seq<Slot>, own: seq<int>, placed: set<nat>, i: nat)
    requires Pass1(sh, es, n, hash, own, placed, i) && i < |es|
    requires Hashed(es, n, i) ==> hash[MainOf(sh, es, |hash|, i)].Node?
    ensures Pass1(sh, es, n, hash, own, placed, i + 1)
  {
  }

  lemma FilledMeans(sh: StrHash, es: seq<Entry>, n: nat, hash: seq<Slot>, own: seq<int>, ch: seq<seq<nat>>,
                    used: set<nat>, placed: set<nat>)
    requires Filled(sh, es, n, hash, own, ch, used, placed)
    ensures |own| == |ch| == |hash| > 0 && Owned(sh, es, n, hash, own) && Chained(hash, ch) && Paired(own, used, placed)
  {
  }

  function FirstNode(sh: StrHash, e: Entry): Slot {
    Node(Narrow(e.key), e.value, Hash(sh, Narrow(e.key)), -1, true)
  }

  function LaterNode(sh: StrHash, e: Entry, next: int): Slot {
    Node(Narrow(e.key), e.value, Hash(sh, Narrow(e.key)), next, false)
  }

  lemma Pass1Put(sh: StrHash, es: seq<Entry>, n: nat, hash: seq<Slot>, own: seq<int>, ch: seq<seq<nat>>,
                 used: set<nat>, placed: set<nat>, i: nat)
    requires Filled(sh, es, n, hash, own, ch, used, placed) && Pass1(sh, es, n, hash, own, placed, i)
    requires Hashed(es, n, i) && n < 0x8000_0000 && hash[MainOf(sh, es, |hash|, i)].Free?
    ensures var m := MainOf(sh, es, |hash|, i); var hash', own' := hash[m := FirstNode(sh, es[i])], own[m := i];
      && Filled(sh, es, n, hash', own', ch[m := [m]], used + {m}, placed + {i})
      && Pass1(sh, es, n, hash', own', placed + {i}, i + 1)
  {
    hide Chained, Owned, Paired, Counted, InArray, Narrow;
    var m := MainOf(sh, es, |hash|, i);
    FreeNotOwned(sh, es, n, hash, own, m);
    PutHead(hash, ch, m, FirstNode(sh, es[i]));
    PairedPut(own, used, placed, m, i);
    OwnPut(sh, es, n, hash, own, m, i, FirstNode(sh, es[i]));
    HashedCounted(es, n, i);
  }

  /** Before entry `i` in the second pass, with no free slot below `empty`. */
  ghost predicate Pass2(sh: StrHash, es: seq<Entry>, n: nat, hash: seq<Slot>, own: seq<int>, placed: set<nat>, i: nat, empty: nat) {
    && |hash| > 0 && |own| == |hash| && empty <= |hash|
    && (forall j :: j in placed ==> j < |es| && (j >= i ==> own[MainOf(sh, es, |hash|, j)] == j))
    && (forall j :: 0 <= j < |es| && Hashed(es, n, j) ==> Heads(hash, MainOf(sh, es, |hash|, j)))
    && (forall s :: 0 <= s < empty ==> hash[s].Node?)
    && (forall j :: 0 <= j < |es| && Hashed(es, n, j) ==> OwnedFirst(sh, es, n, own, MainOf(sh, es, |hash|, j)))
    && (forall j :: 0 <= j < i && Hashed(es, n, j) ==> (j in placed <==> !Lost(sh, es, n, |hash|, j)))
  }

  lemma Pass1Done(sh: StrHash, es: seq<Entry>, n: nat, hash: seq<Slot>, own: seq<int>, placed: set<nat>)
    requires Pass1(sh, es, n, hash, own, placed, |es|) && Owned(sh, es, n, hash, own)
    ensures Pass2(sh, es, n, hash, own, placed, 0, 0)
  {
    hide Narrow, InArray, Hash, FirstAt;
    forall j | 0 <= j < |es| && Hashed(es, n, j) ensures OwnedFirst(sh, es, n, own, MainOf(sh, es, |hash|, j)) {
      assert SlotFits(sh, es, n, hash, own, MainOf(sh, es, |hash|, j));
    }
  }

  lemma Pass2Head(sh: StrHash, es: seq<Entry>, n: nat, hash: seq<Slot>, own: seq<int>, placed: set<nat>, i: nat, empty: nat)
    requires Pass2(sh, es, n, hash, own, placed, i, empty) && i < |es| && Hashed(es, n, i)
    ensures hash[MainOf(sh, es, |hash|, i)].Node?
  {
  }

  lemma Pass2Put(sh: StrHash, es: seq<Entry>, n: nat, hash: seq<Slot>, own: seq<int>, ch: seq<seq<nat>>,
                 used: set<nat>, placed: set<nat>, i: nat, f: nat)
    requires Filled(sh, es, n, hash, own, ch, used, placed) && Pass2(sh, es, n, hash, own, placed, i, f)
    requires Hashed(es, n, i) && n < 0x8000_0000 && f < |hash| && hash[f].Free?
    requires i !in placed && !Lost(sh, es, n, |hash|, i)
    ensures var m := MainOf(sh, es, |hash|, i);
      var x := LaterNode(sh, es[i], hash[m].next);
      var hash', own' := hash[m := hash[m].(next := f, nocolliding := false)][f := x], own[f := i];
      && Filled(sh, es, n, hash', own', ch[m := [m, f] + ch[m][1..]], used + {f}, placed + {i})
      && Pass2(sh, es, n, hash', own', placed + {i}, i + 1, f + 1)
  {
    hide Chained, Owned, Paired, Counted, InArray, Narrow, Lost;
    var m := MainOf(sh, es, |hash|, i);
    var x := LaterNode(sh, es[i], hash[m].next);
    FreeNotOwned(sh, es, n, hash, own, f);
    PutBehind(hash, ch, m, f, x);
    PairedPut(own, used, placed, f, i);
    OwnLink(sh, es, n, hash, own, m, f);
    OwnPut(sh, es, n, hash[m := hash[m].(next := f, nocolliding := false)], own, f, i, x);
    HashedCounted(es, n, i);
  }

  lemma Pass2Skip(sh: StrHash, es: seq<Entry>, n: nat, hash: seq<Slot>, own: seq<int>, ch: seq<seq<nat>>,
                  used: set<nat>, placed: set<nat>, i: nat, empty: nat)
    requires Filled(sh, es, n, hash, own, ch, used, placed) && Pass2(sh, es, n, hash, own, placed, i, empty) && i < |es|
    requires Hashed(es, n, i) ==> hash[MainOf(sh, es, |hash|, i)].key == Narrow(es[i].key)
    ensures Pass2(sh, es, n, hash, own, placed, i + 1, empty)
  {
    hide Chained, Counted, InArray, Narrow, Lost, FirstAt, Hash;
    if Hashed(es, n, i) {
      var m := MainOf(sh, es, |hash|, i);
      assert SlotFits(sh, es, n, hash, own, m) && OwnedFirst(sh, es, n, own, m);
      LostIff(sh, es, n, |hash|, own[m], i);
      assert m in used;
    }
  }

  /** Of two entries with one main position only one is the first; an entry is lost to it if and only
      if it has the same key. */
  lemma LostIff(sh: StrHash, es: seq<Entry>, n: nat, size: nat, o: nat, i: nat)
    requires size > 0 && Hashed(es, n, i) && FirstAt(sh, es, n, size, o)
    requires MainOf(sh, es, size, o) == MainOf(sh, es, size, i)
    ensures Lost(sh, es, n, size, i) <==> o != i && Narrow(es[o].key) == Narrow(es[i].key)
  {
    hide Narrow, InArray, Hash;
    if Lost(sh, es, n, size, i) {
      var k :| 0 <= k < i && FirstAt(sh, es, n, size, k) && Narrow(es[k].key) == Narrow(es[i].key);
      assert MainOf(sh, es, size, k) == MainOf(sh, es, size, o);
    }
  }

  /** An entry that finds another key at its main position is not placed yet. */
  lemma NotYetPlaced(sh: StrHash, es: seq<Entry>, n: nat, hash: seq<Slot>, own: seq<int>, ch: seq<seq<nat>>,
                     used: set<nat>, placed: set<nat>, i: nat, empty: nat)
    requires Filled(sh, es, n, hash, own, ch, used, placed) && Pass2(sh, es, n, hash, own, placed, i, empty)
    requires Hashed(es, n, i) && hash[MainOf(sh, es, |hash|, i)].key != Narrow(es[i].key)
    ensures i !in placed && !Lost(sh, es, n, |hash|, i)
  {
    hide Chained, Counted, InArray, Narrow, Lost, FirstAt, Hash;
    var m := MainOf(sh, es, |hash|, i);
    assert SlotFits(sh, es, n, hash, own, m) && OwnedFirst(sh, es, n, own, m);
    LostIff(sh, es, n, |hash|, own[m], i);
  }

  // ---- iteration order

  function ArrayKeys(arr: seq<Option<Value>>, i: nat): seq<Key>
    requires i <= |arr|
    decreases |arr| - i
  {
    if i == |arr| then []
    else if arr[i].Some? then [Num(i + 1)] + ArrayKeys(arr, i + 1)
    else ArrayKeys(arr, i + 1)
  }

  function HashKeys(hash: seq<Slot>, i: nat): seq<Key>
    requires i <= |hash|
    decreases |hash| - i
  {
    if i == |hash| then []
    else if hash[i].Node? then [hash[i].key] + HashKeys(hash, i + 1)
    else HashKeys(hash, i + 1)
  }

  function First(ks: seq<Key>): Option<Key> { if ks == [] then None else Some(ks[0]) }

  predicate NoRepeat(ks: seq<Key>) { forall i, j :: 0 <= i < j < |ks| ==> ks[i] != ks[j] }

  lemma NoRepeatAppend(a: seq<Key>, b: seq<Key>)
    requires NoRepeat(a) && NoRepeat(b) && forall k :: k in a ==> k !in b
    ensures NoRepeat(a + b)
  {
    var c := a + b;
    forall i, j | 0 <= i < j < |c| ensures c[i] != c[j] {
      if i < |a| <= j { assert c[i] in a && c[j] == b[j - |a|]; }
    }
  }

  lemma {:induction false} ArrayKeysMean(arr: seq<Option<Value>>, i: nat)
    requires i <= |arr|
    ensures forall k :: k in ArrayKeys(arr, i) <==> k.Num? && i < k.i <= |arr| && arr[k.i - 1].Some?
    ensures NoRepeat(ArrayKeys(arr, i))
    decreases |arr| - i
  {
    if i < |arr| { ArrayKeysMean(arr, i + 1); }
  }

  lemma {:induction false} HashKeysMean(hash: seq<Slot>, i: nat)
    requires i <= |hash|
    ensures forall k :: k in HashKeys(hash, i) <==> exists s :: i <= s < |hash| && hash[s].Node? && hash[s].key == k
    decreases |hash| - i
  {
    if i < |hash| { HashKeysMean(hash, i + 1); }
  }

  lemma {:induction false} HashKeysOnce(hash: seq<Slot>, i: nat)
    requires i <= |hash|
    requires forall s, t :: 0 <= s < t < |hash| && hash[s].Node? && hash[t].Node? ==> hash[s].key != hash[t].key
    ensures NoRepeat(HashKeys(hash, i))
    decreases |hash| - i
  {
    if i < |hash| {
      HashKeysOnce(hash, i + 1);
      HashKeysMean(hash, i + 1);
      assert hash[i].Node? ==> hash[i].key !in HashKeys(hash, i + 1);
    }
  }

  /** What follows the first `i` keys of the full hash is the rest of it. */
  lemma {:induction false} HashKeysFrom(hash: seq<Slot>, i: nat)
    requires i <= |hash| && forall s :: 0 <= s < |hash| ==> hash[s].Node?
    ensures |HashKeys(hash, i)| == |hash| - i
    ensures forall s :: i <= s < |hash| ==> HashKeys(hash, i)[s - i] == hash[s].key
    decreases |hash| - i
  {
    if i < |hash| {
      HashKeysFrom(hash, i + 1);
      var all, rest := HashKeys(hash, i), HashKeys(hash, i + 1);
      assert all == [hash[i].key] + rest;
      hide HashKeys;
      forall s | i <= s < |hash| ensures all[s - i] == hash[s].key {
        if s > i { assert all[s - i] == rest[s - (i + 1)]; }
      }
    }
  }

  /** The keys from array index `i` on are a tail of all array keys. */
  lemma {:induction false} ArrayKeysFrom(arr: seq<Option<Value>>, j: nat, i: nat)
    requires j <= i < |arr| && arr[i].Some?
    ensures var all, rest := ArrayKeys(arr, j), ArrayKeys(arr, i + 1);
      |rest| < |all| && all[|all| - |rest| - 1] == Num(i + 1) && all[|all| - |rest|..] == rest
    decreases i - j
  {
    if j < i { ArrayKeysFrom(arr, j + 1, i); }
  }

  function Position(c: seq<nat>, s: nat): (k: nat)
    requires s in c
    ensures k < |c| && c[k] == s
  {
    if c[0] == s then 0 else 1 + Position(c[1..], s)
  }

  lemma OnItsChain(hash: seq<Slot>, ch: seq<seq<nat>>, s: nat)
    requires Chained(hash, ch) && s < |hash| && hash[s].Node?
    ensures Main(hash, s) < |hash| && s in ch[Main(hash, s)]
    ensures hash[s].nocolliding ==> Main(hash, s) == s
  {
    assert OnChain(hash, ch, s);
  }

  lemma LinkAt(hash: seq<Slot>, ch: seq<seq<nat>>, m: nat, k: nat)
    requires Chained(hash, ch) && m < |hash| && k < |ch[m]|
    ensures LinkFits(hash, m, ch[m], k)
  {
    assert ChainFits(hash, m, ch[m]);
  }

  function Range(n: nat): (r: set<nat>)
    ensures |r| == n && forall i: nat :: i in r <==> i < n
  {
    if n == 0 then {} else Range(n - 1) + {n - 1}
  }

  lemma AllUsed(n: nat, used: set<nat>, s: nat)
    requires |used| == n && s < n && forall t :: t in used ==> t < n
    ensures s in used
  {
    if s !in used { Smaller(used, Range(n), s); }
  }

  // ---- keys that are cut to 32 bits

  /** The source table with its keys cut. */
  function Cut(es: seq<Entry>): (r: seq<Entry>)
    ensures |r| == |es| && forall i :: 0 <= i < |es| ==> r[i] == Entry(Narrow(es[i].key), es[i].value)
  {
    seq(|es|, i requires 0 <= i < |es| => Entry(Narrow(es[i].key), es[i].value))
  }

  /** Cutting the keys makes no two of them equal, and no hash key an array index. */
  predicate Unmixed(es: seq<Entry>, n: nat) {
    DistinctKeys(Cut(es)) && forall i :: 0 <= i < |es| && !InArray(es[i].key, n) ==> !InArray(Narrow(es[i].key), n)
  }

  lemma FitUnmixed(es: seq<Entry>, n: nat)
    requires DistinctKeys(es) && forall i :: 0 <= i < |es| ==> Fits(es[i].key)
    ensures Unmixed(es, n) && Cut(es) == es
  {
    forall i | 0 <= i < |es| ensures Narrow(es[i].key) == es[i].key { NarrowFits(es[i].key); }
  }

  /** No entry is lost, and none that was counted for the hash goes to the array. */
  predicate Kept(sh: StrHash, es: seq<Entry>, n: nat, size: nat) {
    size > 0 ==> forall i :: 0 <= i < |es| && !InArray(es[i].key, n) ==> Hashed(es, n, i) && !Lost(sh, es, n, size, i)
  }

  lemma UnmixedKept(sh: StrHash, es: seq<Entry>, n: nat, size: nat)
    requires Unmixed(es, n)
    ensures Kept(sh, es, n, size)
  {
    hide Narrow, FirstAt;
    if size > 0 {
      forall i | 0 <= i < |es| ensures !Lost(sh, es, n, size, i) {
        forall k | 0 <= k < i ensures Narrow(es[k].key) != Narrow(es[i].key) { assert Cut(es)[k].key != Cut(es)[i].key; }
      }
    }
  }

  lemma ArrayExact(arr: seq<Option<Value>>, es: seq<Entry>)
    requires ArrayFits(arr, es, |es|) && DistinctKeys(Cut(es))
    ensures forall q :: 0 <= q < |arr| ==> arr[q] == Get(Cut(es), Num(q + 1))
  {
    hide Narrow;
    forall q | 0 <= q < |arr| ensures arr[q] == Get(Cut(es), Num(q + 1)) {
      GetMeans(Cut(es), Num(q + 1));
      if Get(Cut(es), Num(q + 1)).Some? {
        var j := GetFrom(Cut(es), Num(q + 1));
        assert InArray(Narrow(es[j].key), |arr|);
      }
      if arr[q].Some? {
        var j :| 0 <= j < |es| && Narrow(es[j].key) == Num(q + 1) && es[j].value == arr[q].value;
        assert Cut(es)[j].key == Num(q + 1);
      }
    }
  }

  /** After the second pass no slot is free if and only if no entry was left out. */
  lemma NoneFreeIff(sh: StrHash, es: seq<Entry>, n: nat, hash: seq<Slot>, own: seq<int>, ch: seq<seq<nat>>,
                    used: set<nat>, placed: set<nat>, empty: nat)
    requires Filled(sh, es, n, hash, own, ch, used, placed) && Pass2(sh, es, n, hash, own, placed, |es|, empty)
    requires |hash| == |Counted(es, n)| && n < 0x8000_0000
    ensures (forall s :: 0 <= s < |hash| ==> hash[s].Node?) <==> Kept(sh, es, n, |hash|)
    ensures Kept(sh, es, n, |hash|) ==> forall i :: 0 <= i < |es| && !InArray(es[i].key, n) ==> i in own
  {
    hide Chained, InArray, Narrow, Lost, FirstAt, OwnedFirst;
    if Kept(sh, es, n, |hash|) {
      assert placed == Counted(es, n);
      forall s | 0 <= s < |hash| ensures hash[s].Node? {
        assert SlotFits(sh, es, n, hash, own, s);
        AllUsed(|own|, used, s);
      }
    } else if forall s :: 0 <= s < |hash| ==> hash[s].Node? {
      forall s: nat | s < |hash| ensures s in used { assert SlotFits(sh, es, n, hash, own, s); }
      AllBelow(|hash|, used);
      var i :| 0 <= i < |es| && !InArray(es[i].key, n) && !(Hashed(es, n, i) && !Lost(sh, es, n, |hash|, i));
      assert i in Counted(es, n) && i !in placed;
      Smaller(placed, Counted(es, n), i);
    }
  }

  class Table {
    const sizearray: nat
    const sh: StrHash
    var arr: array<Option<Value>>
    var hash: array<Slot>
    ghost const es: seq<Entry>
    ghost var own: seq<int>
    ghost var ch: seq<seq<nat>>

    ghost predicate Valid()
      reads this, arr, hash
    {
      && arr.Length == sizearray
      && Owned(sh, es, sizearray, hash[..], own) && Chained(hash[..], ch)
    }

    /** `convtable`: the source table as `lua_next` lists it, and its length. */
    constructor (sh: StrHash, es: seq<Entry>, sizearray: nat)
      requires DistinctKeys(es) && sizearray < 0x8000_0000
      ensures this.es == es && this.sizearray == sizearray && this.sh == sh
      ensures Built()
    {
      this.es, this.sh, this.sizearray := es, sh, sizearray;
      arr := new Option<Value>[sizearray](_ => None);
      hash := new Slot[0](_ => Free);
      own, ch := [], [];
      new;
      var sizehash := CountSize(es, sizearray);
      if sizehash > 0 {
        hash := new Slot[sizehash](_ => Free);
        own, ch := seq(sizehash, _ => -1), seq(sizehash, _ => []);
        EmptyTable(sh, es, sizearray, hash[..], own, ch);
        ghost var used, placed := FillNoColliding(es);
        Pass1Done(sh, es, sizearray, hash[..], own, placed);
        used, placed := FillColliding(es, used, placed);
      } else {
        FillArray(es);
      }
    }

    /** Without hash keys the array is read by index. */
    method FillArray(es: seq<Entry>)
      requires es == this.es && DistinctKeys(es) && Counted(es, sizearray) == {}
      requires arr.Length == sizearray < 0x8000_0000
      modifies arr
      ensures ArrayFits(arr[..], es, |es|)
    {
      var i: nat := 1;
      while i <= sizearray
        invariant 1 <= i <= sizearray + 1
        invariant forall q :: 0 <= q < i - 1 ==> arr[q] == Get(es, Num(q + 1))
      {
        arr[i - 1] := Get(es, Num(i));
        i := i + 1;
      }
      forall q | 0 <= q < arr.Length && arr[q].Some?
        ensures exists j :: 0 <= j < |es| && Narrow(es[j].key) == Num(q + 1) && es[j].value == arr[q].value
      {
        var j := GetFrom(es, Num(q + 1));
        NarrowFits(es[j].key);
      }
      forall j | 0 <= j < |es| && InArray(Narrow(es[j].key), arr.Length) ensures arr[Narrow(es[j].key).i - 1].Some? {
        assert j !in Counted(es, sizearray);
        NarrowFits(es[j].key);
        GetMeans(es, es[j].key);
      }
    }

    ghost predicate Built()
      reads this, arr, hash
    {
      && Valid() && DistinctKeys(es) && hash.Length == |Counted(es, sizearray)| && ArrayFits(arr[..], es, |es|)
      && (hash.Length > 0 ==> exists used, placed, empty ::
            && Filled(sh, es, sizearray, hash[..], own, ch, used, placed)
            && Pass2(sh, es, sizearray, hash[..], own, placed, |es|, empty))
    }

    /** The first pass: entries whose main position is free go there. */
    method FillNoColliding(es: seq<Entry>) returns (ghost used: set<nat>, ghost placed: set<nat>)
      requires es == this.es && Valid() && hash.Length > 0 && sizearray < 0x8000_0000
      requires forall s :: 0 <= s < hash.Length ==> hash[s].Free?
      requires forall q :: 0 <= q < arr.Length ==> arr[q].None?
      modifies this`own, this`ch, arr, hash
      ensures Valid() && ArrayFits(arr[..], es, |es|)
      ensures Filled(sh, es, sizearray, hash[..], own, ch, used, placed)
      ensures Pass1(sh, es, sizearray, hash[..], own, placed, |es|)
    {
      hide Chained, Owned, ArrayFits, Filled, Pass1;
      used, placed := {}, {};
      var i: nat := 0;
      NothingStored(arr[..], es);
      NothingFilled(sh, es, sizearray, hash[..], own, ch);
      while i < |es|
        invariant i <= |es| && Valid() && ArrayFits(arr[..], es, i)
        invariant Filled(sh, es, sizearray, hash[..], own, ch, used, placed)
        invariant Pass1(sh, es, sizearray, hash[..], own, placed, i)
      {
        used, placed := Step1(es, i, used, placed);
        i := i + 1;
      }
    }

    /** One entry in the first pass. */
    method Step1(es: seq<Entry>, i: nat, ghost used0: set<nat>, ghost placed0: set<nat>)
      returns (ghost used: set<nat>, ghost placed: set<nat>)
      requires es == this.es && i < |es| && Valid() && ArrayFits(arr[..], es, i) && sizearray < 0x8000_0000
      requires Filled(sh, es, sizearray, hash[..], own, ch, used0, placed0)
      requires Pass1(sh, es, sizearray, hash[..], own, placed0, i)
      modifies this`own, this`ch, arr, hash
      ensures Valid() && ArrayFits(arr[..], es, i + 1)
      ensures Filled(sh, es, sizearray, hash[..], own, ch, used, placed)
      ensures Pass1(sh, es, sizearray, hash[..], own, placed, i + 1)
    {
      hide Chained, Narrow, Owned, ArrayFits, Filled, Pass1, Hash, Heads, Paired, Counted, FirstAt, OwnedFirst, Lost, SlotFits, LinkFits;
      used, placed := used0, placed0;
      var key, value := Narrow(es[i].key), es[i].value;
      ghost var table, items := hash[..], arr[..];
      if InArray(key, sizearray) {
        ArrayPut(items, es, i);
        arr[key.i - 1] := Some(value);
        assert arr[..] == items[key.i - 1 := Some(value)] && hash[..] == table;
        Pass1Skip(sh, es, sizearray, table, own, placed, i);
      } else {
        ArraySkip(items, es, i);
        var keyhash := Hash(sh, key);
        FilledMeans(sh, es, sizearray, table, own, ch, used, placed);
        var m := keyhash % hash.Length;
        if hash[m].Free? {
          Pass1Put(sh, es, sizearray, table, own, ch, used, placed, i);
          hash[m] := Node(key, value, keyhash, -1, true);
          assert hash[..] == table[m := FirstNode(sh, es[i])] && arr[..] == items;
          own, ch, used, placed := own[m := i], ch[m := [m]], used + {m}, placed + {i};
          FilledMeans(sh, es, sizearray, hash[..], own, ch, used, placed);
        } else {
          Pass1Skip(sh, es, sizearray, table, own, placed, i);
        }
      }
    }

    /** The second pass: the others are chained through free slots. There always is one. */
    method FillColliding(es: seq<Entry>, ghost used0: set<nat>, ghost placed0: set<nat>)
      returns (ghost used: set<nat>, ghost placed: set<nat>)
      requires es == this.es && Valid() && hash.Length == |Counted(es, sizearray)| && sizearray < 0x8000_0000
      requires Filled(sh, es, sizearray, hash[..], own, ch, used0, placed0)
      requires Pass2(sh, es, sizearray, hash[..], own, placed0, 0, 0)
      modifies this`own, this`ch, hash
      ensures Valid() && Filled(sh, es, sizearray, hash[..], own, ch, used, placed)
      ensures exists empty :: Pass2(sh, es, sizearray, hash[..], own, placed, |es|, empty)
    {
      hide Chained, Narrow, Owned, Paired, Filled, Pass2, Counted;
      used, placed := used0, placed0;
      var emptyslot: nat := 0;
      var i: nat := 0;
      while i < |es|
        invariant i <= |es| && Valid()
        invariant Filled(sh, es, sizearray, hash[..], own, ch, used, placed)
        invariant Pass2(sh, es, sizearray, hash[..], own, placed, i, emptyslot)
      {
        if InArray(Narrow(es[i].key), sizearray) {
          Pass2Skip(sh, es, sizearray, hash[..], own, ch, used, placed, i, emptyslot);
        } else {
          emptyslot, used, placed := Step2(es, i, emptyslot, used, placed);
        }
        i := i + 1;
      }
    }

    /** A node in the free slot `n`, linked behind the one in slot `m`. */
    method LinkBehind(m: nat, n: nat, key: Key, value: Value, keyhash: nat)
      requires m < hash.Length && n < hash.Length && hash[m].Node? && hash[n].Free?
      modifies hash
      ensures hash[..] == old(hash[..])[m := old(hash[m]).(next := n, nocolliding := false)]
                                       [n := Node(key, value, keyhash, old(hash[m].next), false)]
    {
      var next := hash[m].next;
      hash[m] := hash[m].(next := n, nocolliding := false);
      hash[n] := Node(key, value, keyhash, next, false);
    }

    /** One hash entry in the second pass. */
    method Step2(es: seq<Entry>, i: nat, emptyslot0: nat, ghost used0: set<nat>, ghost placed0: set<nat>)
      returns (emptyslot: nat, ghost used: set<nat>, ghost placed: set<nat>)
      requires es == this.es && i < |es| && Valid() && !InArray(Narrow(es[i].key), sizearray)
      requires hash.Length == |Counted(es, sizearray)| && sizearray < 0x8000_0000
      requires Filled(sh, es, sizearray, hash[..], own, ch, used0, placed0)
      requires Pass2(sh, es, sizearray, hash[..], own, placed0, i, emptyslot0)
      modifies this`own, this`ch, hash
      ensures Valid() && Filled(sh, es, sizearray, hash[..], own, ch, used, placed)
      ensures Pass2(sh, es, sizearray, hash[..], own, placed, i + 1, emptyslot)
    {
      hide Chained, Narrow, Owned, Paired, Filled, Pass2, Counted, Hash, Heads, Lost, FirstAt, OwnedFirst;
      used, placed, emptyslot := used0, placed0, emptyslot0;
      var key, value := Narrow(es[i].key), es[i].value;
      ghost var table := hash[..];
      var keyhash := Hash(sh, key);
      FilledMeans(sh, es, sizearray, table, own, ch, used, placed);
      var m := keyhash % hash.Length;
      Pass2Head(sh, es, sizearray, table, own, placed, i, emptyslot);
      if hash[m].key != key {
        NotYetPlaced(sh, es, sizearray, table, own, ch, used, placed, i, emptyslot);
        var n := FreeSlot(emptyslot, used, placed, i);
        emptyslot := n + 1;
        Pass2Put(sh, es, sizearray, table, own, ch, used, placed, i, n);
        assert |own| == |ch| == hash.Length && ch[m] != [] by { HeadChain(m, used, placed, i, n); }
        LinkBehind(m, n, key, value, keyhash);
        own, ch, used, placed := own[n := i], ch[m := [m, n] + ch[m][1..]], used + {n}, placed + {i};
        FilledMeans(sh, es, sizearray, hash[..], own, ch, used, placed);
      } else {
        Pass2Skip(sh, es, sizearray, table, own, ch, used, placed, i, emptyslot);
      }
    }

    lemma HeadChain(m: nat, used: set<nat>, placed: set<nat>, i: nat, empty: nat)
      requires Filled(sh, es, sizearray, hash[..], own, ch, used, placed)
      requires Pass2(sh, es, sizearray, hash[..], own, placed, i, empty)
      requires Hashed(es, sizearray, i) && m == MainOf(sh, es, hash.Length, i)
      ensures |own| == |ch| == hash.Length && ch[m] != []
    {
      hide Owned, Paired, Narrow;
      assert ChainFits(hash[..], m, ch[m]);
    }

    /** The inner search of the second pass; its assertion never fails. */
    method FreeSlot(emptyslot: nat, ghost used: set<nat>, ghost placed: set<nat>, ghost i: nat) returns (n: nat)
      requires Filled(sh, es, sizearray, hash[..], own, ch, used, placed) && sizearray < 0x8000_0000
      requires Pass2(sh, es, sizearray, hash[..], own, placed, i, emptyslot)
      requires hash.Length == |Counted(es, sizearray)| && Hashed(es, sizearray, i) && i !in placed
      ensures emptyslot <= n < hash.Length && hash[n].Free?
      ensures Pass2(sh, es, sizearray, hash[..], own, placed, i, n)
    {
      hide Chained, Narrow, Paired;
      n := emptyslot;
      while n < hash.Length && !hash[n].Free?
        invariant emptyslot <= n <= hash.Length
        invariant forall s :: 0 <= s < n ==> hash[s].Node?
      {
        n := n + 1;
      }
      assert n < hash.Length by {
        HashedCounted(es, sizearray, i);
        SlotsLeft(own, used, placed, Counted(es, sizearray), i);
        var s: nat :| s < |own| && s !in used;
        assert SlotFits(sh, es, sizearray, hash[..], own, s);
        UsedOwns(own, used, placed, s);
      }
    }

    // ---- reading

    /** Every slot of the hash was filled; a free one is memory that nobody has written. */
    ghost predicate NoneFree()
      reads this, hash
    {
      forall s :: 0 <= s < hash.Length ==> hash[s].Node?
    }

    /** Conversion fills all slots if and only if it keeps all entries. */
    lemma NoneFreeExactly()
      requires Built() && sizearray < 0x8000_0000
      ensures NoneFree() <==> Kept(sh, es, sizearray, hash.Length)
    {
      hide Filled, Pass2, Kept;
      if hash.Length > 0 {
        var used, placed, empty :|
          && Filled(sh, es, sizearray, hash[..], own, ch, used, placed)
          && Pass2(sh, es, sizearray, hash[..], own, placed, |es|, empty);
        NoneFreeIff(sh, es, sizearray, hash[..], own, ch, used, placed, empty);
      } else {
        EmptyKept(sh, es, sizearray);
      }
    }

    /** And only then does every lookup start at a slot that was written. */
    lemma LookupsDefined()
      requires hash.Length > 0 && sizearray + 2 * hash.Length < 0x8000_0000
      ensures NoneFree() <==>
        forall k :: Fits(k) && Narrow(k) == k && !InArray(k, sizearray) ==> hash[Hash(sh, k) % hash.Length].Node?
    {
      forall s | 0 <= s < hash.Length && !hash[s].Node?
        ensures exists k :: Fits(k) && Narrow(k) == k && !InArray(k, sizearray) && !hash[Hash(sh, k) % hash.Length].Node?
      {
        var k := KeyFor(s, hash.Length, sizearray);
        SmallKey(k);
        assert Hash(sh, Num(k)) % hash.Length == s;
      }
    }

    /** The table holds every key of its source, cut to 32 bits. */
    ghost predicate Whole()
      reads this, arr, hash
    {
      && Valid() && DistinctKeys(es) && sizearray < 0x8000_0000 && NoneFree() && ArrayFits(arr[..], es, |es|)
      && (forall i :: 0 <= i < |es| && Hashed(es, sizearray, i) ==>
            exists s :: 0 <= s < hash.Length && hash[s].key == Narrow(es[i].key))
    }

    /** And tells them apart. */
    ghost predicate Faithful()
      reads this, arr, hash
    {
      Whole() && Unmixed(es, sizearray)
    }

    lemma BuiltWhole()
      requires Built() && NoneFree() && sizearray < 0x8000_0000
      ensures Whole()
    {
      hide Narrow, Kept, ArrayFits, Lost, FirstAt, Hash;
      NoneFreeExactly();
      forall i | 0 <= i < |es| && Hashed(es, sizearray, i)
        ensures exists s :: 0 <= s < hash.Length && hash[s].key == Narrow(es[i].key)
      {
        HashedCounted(es, sizearray, i);
        var used, placed, empty :|
          && Filled(sh, es, sizearray, hash[..], own, ch, used, placed)
          && Pass2(sh, es, sizearray, hash[..], own, placed, |es|, empty);
        var s := SlotOf(used, placed, empty, i);
      }
    }

    lemma SlotOf(used: set<nat>, placed: set<nat>, empty: nat, i: nat) returns (s: nat)
      requires Filled(sh, es, sizearray, hash[..], own, ch, used, placed)
      requires Pass2(sh, es, sizearray, hash[..], own, placed, |es|, empty) && Hashed(es, sizearray, i)
      ensures s < hash.Length && hash[s].Node? && hash[s].key == Narrow(es[i].key)
    {
      hide Narrow, Chained, Lost, FirstAt, Hash, InArray, Counted;
      if i in placed {
        s :| 0 <= s < |own| && own[s] == i;
      } else {
        s := MainOf(sh, es, hash.Length, i);
        assert OwnedFirst(sh, es, sizearray, own, s);
        LostIff(sh, es, sizearray, hash.Length, own[s], i);
      }
      assert SlotFits(sh, es, sizearray, hash[..], own, s);
    }

    /** Conversion is faithful whenever cutting the keys mixes nothing up. */
    lemma BuiltFaithful()
      requires Built() && sizearray < 0x8000_0000 && Unmixed(es, sizearray)
      ensures Faithful()
    {
      hide Unmixed, Kept, Built;
      UnmixedKept(sh, es, sizearray, hash.Length);
      NoneFreeExactly();
      BuiltWhole();
    }

    /** `lookup_key`, with the shortcut through `nocolliding`. */
    method LookupKey(key: Key) returns (r: Option<nat>)
      requires Valid() && NoneFree()
      ensures r.Some? ==> r.value < hash.Length && hash[r.value].key == key
      ensures r.None? ==> forall s :: 0 <= s < hash.Length ==> hash[s].key != key
    {
      hide Owned;
      if hash.Length == 0 {
        return None;
      }
      var keyhash := Hash(sh, key);
      var n: nat := keyhash % hash.Length;
      ghost var m := Main(hash[..], n);
      OnItsChain(hash[..], ch, n);
      ghost var c, from: nat := ch[m], Position(ch[m], n);
      if keyhash != hash[n].khash && hash[n].nocolliding {
        ShortCut(key, n);
        return None;
      }
      ghost var k := from;
      while true
        invariant from <= k < |c| && c == ch[m] && n == c[k] && n < hash.Length
        invariant forall j :: from <= j < k ==> c[j] < hash.Length && hash[c[j]].key != key
        decreases |c| - k
      {
        if keyhash == hash[n].khash && hash[n].key == key {
          return Some(n);
        }
        LinkAt(hash[..], ch, m, k);
        KeyHash(n);
        if hash[n].next < 0 {
          NotFound(key, m, from);
          return None;
        }
        n := hash[n].next;
        k := k + 1;
        LinkAt(hash[..], ch, m, k);
      }
    }

    lemma KeyHash(s: nat)
      requires Valid() && s < hash.Length && hash[s].Node?
      ensures hash[s].khash == Hash(sh, hash[s].key)
    {
      assert SlotFits(sh, es, sizearray, hash[..], own, s);
    }

    lemma ShortCut(key: Key, n: nat)
      requires Valid() && NoneFree() && hash.Length > 0 && n == Hash(sh, key) % hash.Length
      requires Hash(sh, key) != hash[n].khash && hash[n].nocolliding
      ensures forall s :: 0 <= s < hash.Length ==> hash[s].key != key
    {
      assert ChainFits(hash[..], n, ch[n]);
      forall s | 0 <= s < hash.Length ensures hash[s].key != key {
        KeyHash(s);
        if hash[s].key == key { OnItsChain(hash[..], ch, s); }
      }
    }

    /** The whole chain of the key's main position was walked, if the walk started at its head. */
    lemma NotFound(key: Key, m: nat, from: nat)
      requires Valid() && NoneFree() && hash.Length > 0 && m < hash.Length && from < |ch[m]|
      requires ch[m][from] == Hash(sh, key) % hash.Length
      requires forall j :: from <= j < |ch[m]| ==> ch[m][j] < hash.Length && hash[ch[m][j]].key != key
      ensures forall s :: 0 <= s < hash.Length ==> hash[s].key != key
    {
      var n := Hash(sh, key) % hash.Length;
      LinkAt(hash[..], ch, m, from);
      assert ChainFits(hash[..], n, ch[n]);
      forall s | 0 <= s < hash.Length ensures hash[s].key != key {
        KeyHash(s);
        if hash[s].key == key {
          OnItsChain(hash[..], ch, s);
        }
      }
    }

    lemma SlotKey(s: nat) returns (i: nat)
      requires Valid() && s < hash.Length && hash[s].Node?
      ensures i < |es| && hash[s].key == Narrow(es[i].key) && hash[s].value == es[i].value
      ensures Fits(hash[s].key) && Narrow(hash[s].key) == hash[s].key && !InArray(hash[s].key, sizearray)
    {
      assert SlotFits(sh, es, sizearray, hash[..], own, s);
      i := own[s];
      NarrowFits(es[i].key);
      NarrowFits(hash[s].key);
    }

    lemma SlotGet(s: nat)
      requires Faithful() && s < hash.Length
      ensures Fits(hash[s].key) && !InArray(hash[s].key, sizearray)
      ensures Get(Cut(es), hash[s].key) == Some(hash[s].value)
    {
      hide Narrow, InArray, Fits;
      var i := SlotKey(s);
      GetMeans(Cut(es), hash[s].key);
      assert Cut(es)[i].key == hash[s].key;
    }

    lemma NoSlotGet(key: Key)
      requires Faithful() && !InArray(key, sizearray) && forall s :: 0 <= s < hash.Length ==> hash[s].key != key
      ensures Get(Cut(es), key) == None
    {
      hide Narrow, InArray;
      forall i | 0 <= i < |es| ensures Cut(es)[i].key != key {
        assert Hashed(es, sizearray, i) || InArray(Narrow(es[i].key), sizearray);
      }
      GetMeans(Cut(es), key);
    }

    lemma ArrayGet(q: nat)
      requires Faithful() && q < sizearray
      ensures arr[q] == Get(Cut(es), Num(q + 1))
    {
      ArrayExact(arr[..], es);
      assert arr[..][q] == Get(Cut(es), Num(q + 1));
    }

    /** There is an answer if and only if some key of the source is cut to `key`, and it belongs to
        such a key. */
    ghost predicate Answers(key: Key, r: Option<Value>) {
      && (r.Some? <==> exists i :: 0 <= i < |es| && Narrow(es[i].key) == key)
      && (r.Some? ==> exists i :: 0 <= i < |es| && Narrow(es[i].key) == key && es[i].value == r.value)
    }

    lemma ArrayAnswers(key: Key)
      requires Whole() && InArray(key, sizearray)
      ensures Answers(key, arr[key.i - 1])
    {
      hide Narrow, Owned, Chained;
      assert arr[..][key.i - 1] == arr[key.i - 1];
    }

    lemma SlotAnswers(s: nat)
      requires Whole() && s < hash.Length
      ensures Answers(hash[s].key, Some(hash[s].value))
    {
      hide Narrow, Owned, Chained;
      var i := SlotKey(s);
    }

    lemma NothingAnswers(key: Key)
      requires Whole() && !InArray(key, sizearray) && forall s :: 0 <= s < hash.Length ==> hash[s].key != key
      ensures Answers(key, None)
    {
      hide Narrow, Owned, Chained;
      forall i | 0 <= i < |es| ensures Narrow(es[i].key) != key {
        assert Hashed(es, sizearray, i) || InArray(Narrow(es[i].key), sizearray);
      }
    }

    /** Where cutting mixes nothing up the answer belongs to the one key asked for. */
    lemma OneAnswer(key: Key, r: Option<Value>)
      requires Unmixed(es, sizearray) && Answers(key, r)
      ensures forall i :: 0 <= i < |es| && Narrow(es[i].key) == key ==> r == Some(es[i].value)
    {
      hide Narrow;
      forall i | 0 <= i < |es| && Narrow(es[i].key) == key ensures r == Some(es[i].value) {
        var j :| 0 <= j < |es| && Narrow(es[j].key) == key && es[j].value == r.value;
        assert Cut(es)[j].key == Cut(es)[i].key;
      }
    }

    /** `indexconf`: the key that is asked for is cut, too, so a key of the source is found however large
        it is. */
    method IndexConf(k: Key) returns (r: Option<Value>)
      requires Whole()
      ensures Answers(Narrow(k), r)
      ensures Unmixed(es, sizearray) ==> forall i :: 0 <= i < |es| && es[i].key == k ==> r == Some(es[i].value)
    {
      hide Owned, Chained, Narrow, Unmixed, Answers, ArrayFits;
      var key := Narrow(k);
      if InArray(key, sizearray) {
        r := arr[key.i - 1];
        ArrayAnswers(key);
      } else {
        var s := LookupKey(key);
        if s.Some? {
          r := Some(hash[s.value].value);
          SlotAnswers(s.value);
        } else {
          r := None;
          NothingAnswers(key);
        }
      }
      if Unmixed(es, sizearray) { OneAnswer(key, r); }
    }

    /** The order in which `nextkey` goes through the keys. */
    ghost function Order(): seq<Key>
      reads this, arr, hash
    {
      ArrayKeys(arr[..], 0) + HashKeys(hash[..], 0)
    }

    lemma OrderIs()
      ensures Order() == ArrayKeys(arr[..], 0) + HashKeys(hash[..], 0)
    {
    }

    /** Each key of the source table, cut to 32 bits, once, and no other. */
    lemma OrderIsExact()
      requires Faithful()
      ensures NoRepeat(Order())
      ensures forall k :: k in Order() <==> Get(Cut(es), k).Some?
    {
      hide Fits;
      ArrayKeysMean(arr[..], 0);
      HashKeysMean(hash[..], 0);
      DistinctSlots();
      HashKeysOnce(hash[..], 0);
      forall s | 0 <= s < hash.Length ensures !InArray(hash[s].key, sizearray) && Get(Cut(es), hash[s].key).Some? { SlotGet(s); }
      NoRepeatAppend(ArrayKeys(arr[..], 0), HashKeys(hash[..], 0));
      forall k ensures k in Order() <==> Get(Cut(es), k).Some? {
        if InArray(k, sizearray) {
          ArrayGet(k.i - 1);
        } else if forall s :: 0 <= s < hash.Length ==> hash[s].key != k {
          NoSlotGet(k);
        }
      }
    }

    lemma DistinctSlots()
      requires Faithful()
      ensures forall s, t :: 0 <= s < t < hash.Length ==> hash[s].key != hash[t].key
    {
      forall s, t | 0 <= s < t < hash.Length ensures hash[s].key != hash[t].key {
        assert SlotFits(sh, es, sizearray, hash[..], own, s) && SlotFits(sh, es, sizearray, hash[..], own, t);
        assert Cut(es)[own[s]].key == hash[s].key && Cut(es)[own[t]].key == hash[t].key;
        assert own[s] != own[t];
      }
    }

    /** The first key from array index `i` on, or the first hash key. */
    method FirstFrom(i: nat) returns (r: Option<Key>)
      requires Faithful() && i <= sizearray
      ensures r == First(ArrayKeys(arr[..], i) + HashKeys(hash[..], 0))
    {
      hide Owned, Chained;
      var q := i;
      while q < sizearray
        invariant i <= q <= sizearray && ArrayKeys(arr[..], i) == ArrayKeys(arr[..], q)
      {
        if arr[q].Some? {
          return Some(Num(q + 1));
        }
        q := q + 1;
      }
      HashKeysFrom(hash[..], 0);
      if hash.Length > 0 {
        r := Some(hash[0].key);
      } else {
        r := None;
      }
    }

    lemma FaithfulMeans()
      requires Faithful()
      ensures Valid() && NoneFree() && hash.Length >= 0 && arr.Length == sizearray
    {
    }

    lemma AfterArrayKey(i: nat)
      requires Faithful() && 0 < i <= sizearray && NoRepeat(Order())
      ensures forall p :: 0 <= p < |Order()| && Order()[p] == Num(i) ==>
        Order()[p + 1..] == ArrayKeys(arr[..], i) + HashKeys(hash[..], 0)
    {
      hide Faithful, ArrayKeys, HashKeys, Order, Cut, Get;
      FaithfulMeans();
      OrderIs();
      var a, h := ArrayKeys(arr[..], 0), HashKeys(hash[..], 0);
      if arr[i - 1].Some? {
        ArrayKeysFrom(arr[..], 0, i - 1);
        var rest := ArrayKeys(arr[..], i);
        var p := |a| - |rest| - 1;
        assert Order()[p] == Num(i) && Order()[p + 1..] == rest + h;
      } else {
        ArrayGet(i - 1);
        OrderIsExact();
        assert Num(i) !in Order();
      }
    }

    lemma AfterHashKey(s: nat)
      requires Faithful() && s < hash.Length && NoRepeat(Order())
      ensures s + 1 < hash.Length ==> hash[s + 1].Node?
      ensures forall p :: 0 <= p < |Order()| && Order()[p] == hash[s].key ==>
        First(Order()[p + 1..]) == if s + 1 == hash.Length then None else Some(hash[s + 1].key)
    {
      hide Owned, Chained;
      HashKeysFrom(hash[..], 0);
      var a, h := ArrayKeys(arr[..], 0), HashKeys(hash[..], 0);
      assert Order()[|a| + s] == h[s];
      if s + 1 < hash.Length { assert Order()[|a| + s + 1] == h[s + 1]; }
    }

    lemma KeyInOrder(k: Key)
      requires Faithful() && k in Order()
      ensures Fits(k) && Narrow(k) == k && (InArray(k, sizearray) || exists s :: 0 <= s < hash.Length && hash[s].key == k)
    {
      OrderIsExact();
      var i := GetFrom(Cut(es), k);
      NarrowFits(es[i].key);
      NarrowFits(k);
      if !InArray(k, sizearray) && forall s :: 0 <= s < hash.Length ==> hash[s].key != k { NoSlotGet(k); }
    }

    /** `nextkey`: the successor of a key, or the first key. */
    method NextKey(k: Option<Key>) returns (r: Option<Key>)
      requires Faithful()
      ensures k.None? ==> r == First(Order())
      ensures forall p :: 0 <= p < |Order()| && k == Some(Order()[p]) ==> r == First(Order()[p + 1..])
    {
      hide Owned, Chained, SlotFits, Fits, Faithful, Order, NoRepeat;
      FaithfulMeans();
      if k.None? {
        OrderIs();
        r := FirstFrom(0);
        return;
      }
      OrderIsExact();
      var key := Narrow(k.value);
      NarrowFits(k.value);
      if k.value in Order() { KeyInOrder(k.value); }
      if InArray(key, sizearray) {
        r := FirstFrom(key.i);
        AfterArrayKey(key.i);
        return;
      }
      var s := LookupKey(key);
      if s.None? {
        return None;
      }
      AfterHashKey(s.value);
      if s.value + 1 == hash.Length {
        r := None;
      } else {
        r := Some(hash[s.value + 1].key);
      }
    }

    /** A full iteration, from nil until nil comes back, visits exactly the keys in order. */
    method Iterate() returns (keys: seq<Key>)
      requires Faithful()
      ensures keys == Order()
    {
      hide Faithful, Order;
      keys := [];
      var k := NextKey(None);
      while k.Some?
        invariant |keys| <= |Order()| && keys == Order()[..|keys|] && k == First(Order()[|keys|..])
        decreases |Order()| - |keys|
      {
        assert Order()[|keys|] == k.value;
        keys := keys + [k.value];
        k := NextKey(k);
      }
      assert Order()[|keys|..] == [];
    }

    /** No key that comes back from `nextkey` needs more than 32 bits: iteration is complete if and only
        if all keys fit. */
    lemma VisitsAllIffFits()
      requires Faithful()
      ensures (forall i :: 0 <= i < |es| ==> es[i].key in Order()) <==> forall i :: 0 <= i < |es| ==> Fits(es[i].key)
    {
      hide Order, Fits, Narrow;
      OrderIsExact();
      forall k | k in Order() ensures Fits(k) { KeyInOrder(k); }
      if forall i :: 0 <= i < |es| ==> Fits(es[i].key) {
        FitUnmixed(es, sizearray);
        forall i | 0 <= i < |es| ensures es[i].key in Order() { GetMeans(es, es[i].key); }
      }
    }
  }

  lemma EmptyKept(sh: StrHash, es: seq<Entry>, n: nat)
    ensures Kept(sh, es, n, 0)
  {
  }

  lemma SmallKey(k: nat)
    requires k < 0x8000_0000
    ensures k % WORD == k && Narrow(Num(k)) == Num(k)
  {
  }

  function Rem(k: nat, size: nat): nat
    requires size > 0
  {
    k % size
  }

  /** An integer key that is hashed to slot `s`. */
  lemma KeyFor(s: nat, size: nat, n: nat) returns (k: nat)
    requires s < size && n + 2 * size < 0x8000_0000
    ensures n < k < 0x8000_0000 && Rem(k, size) == s
  {
    k := s;
    Remainder(s, size, 0, s);
    hide Rem;
    while k <= n
      invariant Rem(k, size) == s && k <= n + size
      decreases n + size - k
    {
      AddSize(k, size);
      k := k + size;
    }
  }

  lemma AddSize(k: nat, size: nat)
    requires size > 0
    ensures Rem(k + size, size) == Rem(k, size)
  {
    Remainder(k + size, size, k / size + 1, k % size);
  }

  lemma Remainder(x: nat, size: nat, q: nat, r: nat)
    requires r < size && x == size * q + r
    ensures Rem(x, size) == r
  {
    var q', r' := x / size, x % size;
    if q' < q {
      Apart(size, q', q);
    } else if q < q' {
      Apart(size, q, q');
    }
  }

  lemma Apart(w: nat, a: nat, b: nat)
    requires a < b
    ensures w * b >= w * a + w
  {
    if b == a + 1 {
      assert w * (a + 1) == w * a + w;
    } else {
      Apart(w, a, b - 1);
      assert w * (b - 1) == w * b - w;
    }
  }

  // ---- two tables whose keys are mixed up

  /** `{ [1] = v, [2^32 + 1] = w }`: a slot is counted for the second key, which then goes to the array. */
  lemma SlotNeverFilled(sh: StrHash, v: Value, w: Value)
    ensures var es := [Entry(Num(1), v), Entry(Num(WORD + 1), w)];
      DistinctKeys(es) && Counted(es, 1) == {1} && !Kept(sh, es, 1, 1)
  {
  }

  /** `{ [3] = u, [0] = v, [2^32] = w }`, listed in this order: the second pass compares a key only with
      the one at its main position, so both entries with the cut key 0 get slots, and none is free. */
  lemma KeptThoughMixed(sh: StrHash, u: Value, v: Value, w: Value)
    ensures var es := [Entry(Num(3), u), Entry(Num(0), v), Entry(Num(WORD), w)];
      DistinctKeys(es) && Counted(es, 0) == {0, 1, 2} && Kept(sh, es, 0, 3) && !Unmixed(es, 0)
  {
    var es := [Entry(Num(3), u), Entry(Num(0), v), Entry(Num(WORD), w)];
    assert Narrow(es[0].key) == Num(3) && Narrow(es[1].key) == Num(0) && Narrow(es[2].key) == Num(0);
    assert MainOf(sh, es, 3, 0) == MainOf(sh, es, 3, 1) == MainOf(sh, es, 3, 2) == 0;
    assert Hashed(es, 0, 0) && !FirstAt(sh, es, 0, 3, 1);
    assert Cut(es)[1].key == Cut(es)[2].key;
  }
}
