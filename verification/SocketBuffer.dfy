/**
 * The receive buffer of a Lua socket: a list of blocks taken from a pool of nodes, read by length or up
 * to a separator that may lie across blocks.
 */
module SocketBuffer {
  import opened Words
  import opened Framing

  const LARGE_PAGE_NODE := 12

  class Node {
    var msg: bytes
    var next: Node?

    constructor (next: Node?)
      ensures this.next == next && msg == []
    {
      this.next, msg := next, [];
    }
  }

  /** `ns` are the nodes from `first` on. */
  ghost predicate Chain(ns: seq<Node>, first: Node?)
    reads ns
  {
    first == Nth(ns, 0) && forall i :: 0 <= i < |ns| ==> Links(ns, i)
  }

  function Nth(ns: seq<Node>, k: nat): Node? { if k < |ns| then ns[k] else null }

  ghost predicate Links(ns: seq<Node>, i: nat)
    requires i < |ns|
    reads ns[i]
  {
    ns[i].next == Nth(ns, i + 1)
  }

  ghost predicate Holds(ns: seq<Node>, parts: seq<bytes>)
    reads ns
  {
    |ns| == |parts| && forall i :: 0 <= i < |ns| ==> ns[i].msg == parts[i] != []
  }

  lemma HoldsMeans(ns: seq<Node>, parts: seq<bytes>)
    ensures Holds(ns, parts) <==> |ns| == |parts| && forall i :: 0 <= i < |ns| ==> ns[i].msg == parts[i] != []
  {
  }

  ghost predicate Apart(ns: seq<Node>, ms: seq<Node>) {
    && (forall i, j :: 0 <= i < j < |ns| ==> ns[i] != ns[j])
    && (forall i, j :: 0 <= i < j < |ms| ==> ms[i] != ms[j])
    && (forall i, j :: 0 <= i < |ns| && 0 <= j < |ms| ==> ns[i] != ms[j])
  }

  /** The first node changes from one list to the other. */
  lemma ApartMoves(ns: seq<Node>, ms: seq<Node>)
    requires Apart(ns, ms) && ns != []
    ensures ns[0] !in ns[1..] && ns[0] !in ms && Apart(ns[1..], [ns[0]] + ms)
    ensures forall i :: 0 <= i < |ms| ==> ms[i] !in ns
  {
  }

  // ---- where a separator is

  predicate At(c: bytes, sep: bytes, i: nat) { i + |sep| <= |c| && c[i..i + |sep|] == sep }

  /** The first place of `sep` in `c`. */
  predicate First(c: bytes, sep: bytes, i: nat) { At(c, sep, i) && forall j :: 0 <= j < i ==> !At(c, sep, j) }

  predicate Absent(c: bytes, sep: bytes) { forall j :: 0 <= j <= |c| ==> !At(c, sep, j) }

  lemma JoinFrom(parts: seq<bytes>, k: nat)
    requires k < |parts|
    ensures Join(parts[k..]) == parts[k] + Join(parts[k + 1..])
  {
    assert parts[k..][1..] == parts[k + 1..];
  }

  lemma JoinAfter(parts: seq<bytes>, b: bytes, from: nat)
    requires if parts == [] then from == 0 else from < |parts[0]|
    ensures from <= |Join(parts)| <= |Join(parts + [b])| && Join(parts + [b])[from..] == Join(parts)[from..] + b
  {
    JoinPush(parts, b);
    if parts != [] { assert |Join(parts)| >= |parts[0]|; }
    DropJoin(Join(parts), b, from);
  }

  lemma DropJoin(a: bytes, b: bytes, n: nat)
    requires n <= |a|
    ensures (a + b)[n..] == a[n..] + b
  {
  }

  class Buffer {
    var size: nat
    var offset: nat
    var head: Node?
    var tail: Node?
    var free: Node?
    var chunks: nat
    ghost var nodes: seq<Node>
    ghost var spare: seq<Node>
    ghost var parts: seq<bytes>

    /** Both lists and the read position; the count of bytes is apart. */
    ghost predicate Linked()
      reads `offset, `head, `tail, `free, `nodes, `spare, `parts, nodes, spare
    {
      && Chain(nodes, head) && Chain(spare, free) && Holds(nodes, parts) && Apart(nodes, spare)
      && tail == (if nodes == [] then null else nodes[|nodes| - 1])
      && (if parts == [] then offset == 0 else offset < |parts[0]|)
    }

    ghost function Contents(): bytes
      reads `offset, `parts
    {
      if offset <= |Join(parts)| then Join(parts)[offset..] else []
    }

    ghost predicate Valid()
      reads this, nodes, spare
    {
      Linked() && size == |Contents()|
    }

    constructor ()
      ensures Valid() && Contents() == [] && nodes == [] && spare == []
    {
      size, offset, head, tail, free, chunks := 0, 0, null, null, null, 0;
      nodes, spare, parts := [], [], [];
    }

    /** `lnewpool`: a chain of new nodes. */
    static method NewPool(sz: nat) returns (first: Node?, ghost ns: seq<Node>)
      ensures Chain(ns, first) && |ns| == sz && Apart(ns, []) && fresh(ns)
    {
      first, ns := null, [];
      var i := 0;
      while i < sz
        invariant |ns| == i <= sz && Chain(ns, first) && Apart(ns, []) && fresh(ns)
      {
        ghost var was := ns;
        var n := new Node(first);
        ns := [n] + was;
        first := n;
        forall j | 0 <= j < |ns| ensures Links(ns, j) {
          if j > 0 { assert Links(was, j - 1) && ns[j] == was[j - 1]; }
        }
        i := i + 1;
      }
    }

    /** The pool grows by a chunk of 16 nodes, then 32 and so on up to 4096. */
    method Refill()
      requires Linked() && free == null
      modifies `free, `chunks, `spare
      ensures Linked() && free != null && fresh(spare)
    {
      var tsz := if chunks == 0 then 1 else chunks;
      var sz, i := 8, 0;
      while i < tsz && i < LARGE_PAGE_NODE - 3
        modifies {}
        invariant sz >= 8
      {
        sz, i := 2 * sz, i + 1;
      }
      free, spare := NewPool(sz);
      chunks := tsz + 1;
    }

    lemma Offset()
      requires Linked()
      ensures if parts == [] then offset == 0 else offset < |parts[0]|
      ensures Contents() == if offset <= |Join(parts)| then Join(parts)[offset..] else []
      ensures head == null <==> nodes == []
    {
    }

    lemma ContentsAre()
      ensures Contents() == if offset <= |Join(parts)| then Join(parts)[offset..] else []
    {
    }

    /** A free node leaves the pool. */
    method TakeNode() returns (node: Node)
      requires Linked()
      modifies `free, `chunks, `spare
      ensures Linked() && node !in nodes && node !in spare && (node in old(spare) || fresh(node))
      ensures forall i :: 0 <= i < |spare| ==> spare[i] in old(spare) || fresh(spare[i])
    {
      if free == null {
        Refill();
      }
      ghost var was := spare;
      node := free;
      assert Links(was, 0);
      free, spare := node.next, spare[1..];
      forall i | 0 <= i < |spare| ensures Links(spare, i) { assert spare[i] == was[i + 1] && Links(was, i + 1); }
    }

    /** The node becomes the last one. */
    method Link(node: Node, msg: bytes)
      requires Linked() && node !in nodes && node !in spare && msg != []
      modifies `head, `tail, `nodes, `parts, node, nodes
      ensures Linked() && nodes == old(nodes) + [node] && parts == old(parts) + [msg]
    {
      ghost var was, left := nodes, spare;
      label Before:
      node.msg, node.next := msg, null;
      if head == null {
        head := node;
      } else {
        tail.next := node;
      }
      tail := node;
      nodes, parts := was + [node], parts + [msg];
      forall i | 0 <= i < |nodes| ensures Links(nodes, i) {
        if i < |was| { assert old@Before(Links(was, i)); }
      }
      forall i | 0 <= i < |spare| ensures Links(spare, i) { assert old@Before(Links(left, i)); }
    }

    /** `lpushbuffer` */
    method Push(msg: bytes) returns (total: nat)
      requires Valid() && msg != []
      modifies this, nodes, spare
      ensures Valid() && Contents() == old(Contents()) + msg && total == size
      ensures forall i :: 0 <= i < |nodes| ==> nodes[i] in old(nodes) || nodes[i] in old(spare) || fresh(nodes[i])
      ensures forall i :: 0 <= i < |spare| ==> spare[i] in old(spare) || fresh(spare[i])
    {
      hide Linked, Contents, Join;
      Offset();
      JoinAfter(parts, msg, offset);
      var node := TakeNode();
      Link(node, msg);
      ContentsAre();
      size := size + |msg|;
      total := size;
    }

    /** `return_free_node` */
    method ReturnFreeNode()
      requires Linked() && nodes != []
      modifies this, nodes[0]
      ensures Linked() && parts == old(parts)[1..] && offset == 0 && size == old(size)
      ensures nodes == old(nodes)[1..] && spare == [old(nodes)[0]] + old(spare)
    {
      hide Apart, Holds;
      ghost var was, left := nodes, spare;
      label Before:
      var node := head;
      assert Links(was, 0);
      ApartMoves(was, left);
      HoldsMeans(was, parts);
      offset, head := 0, node.next;
      if head == null {
        tail := null;
      }
      node.next, node.msg := free, [];
      free, nodes, spare, parts := node, was[1..], [node] + left, parts[1..];
      forall i | 0 <= i < |nodes| ensures Links(nodes, i) { assert nodes[i] == was[i + 1] && old@Before(Links(was, i + 1)); }
      forall i | 0 <= i < |spare| ensures Links(spare, i) {
        if i > 0 { assert spare[i] == left[i - 1] && old@Before(Links(left, i - 1)); }
      }
      HoldsMeans(nodes, parts);
    }

    /** What is read and returned is taken off the front. */
    lemma Front()
      requires Linked() && nodes != []
      ensures Contents() == parts[0][offset..] + Join(parts[1..]) && |parts| == |nodes|
      ensures head == nodes[0] && head.msg == parts[0] && offset < |head.msg|
    {
      JoinFrom(parts, 0);
      assert parts[0..] == parts;
      DropJoin(parts[0], Join(parts[1..]), offset);
    }

    lemma Filled()
      requires Linked()
      ensures Contents() == [] <==> nodes == []
    {
      if nodes != [] { Front(); }
    }

    /** `left` bytes of the first block are read. */
    method Advance(left: nat)
      requires Linked() && nodes != [] && left <= |nodes[0].msg| - offset
      modifies this, nodes[0]
      ensures Linked() && left <= |old(Contents())| && Contents() == old(Contents())[left..] && size == old(size)
      ensures if left < old(|nodes[0].msg| - offset) then nodes == old(nodes) && spare == old(spare)
        else nodes == old(nodes)[1..] && spare == [old(nodes)[0]] + old(spare)
    {
      hide Chain, Apart;
      Front();
      ghost var h, t := parts[0][offset..], Join(parts[1..]);
      DropJoin(h, t, left);
      if left < |head.msg| - offset {
        offset := offset + left;
        Front();
        assert h[left..] == parts[0][offset..];
      } else {
        ReturnFreeNode();
        assert h[left..] == [] && [] + t == t && Join(parts)[0..] == Join(parts);
      }
    }

    /** `pop_lstring`: `sz` bytes go, all but the last `skip` of them are the result. */
    method PopString(sz: nat, skip: nat) returns (line: bytes)
      requires Linked() && nodes != [] && skip <= sz <= |Contents()|
      modifies this, nodes
      ensures Linked() && line == old(Contents())[..sz - skip] && Contents() == old(Contents())[sz..] && size == old(size)
      ensures forall i :: 0 <= i < |nodes| ==> nodes[i] in old(nodes)
      ensures forall i :: 0 <= i < |spare| ==> spare[i] in old(nodes) || spare[i] in old(spare)
    {
      hide Linked, Contents, Join;
      ghost var all, olds, pool := Contents(), nodes, spare;
      line := [];
      var left: nat := sz;
      while true
        invariant Linked() && nodes != [] && size == old(size) && left <= sz <= |all| && left <= |Contents()|
        invariant Contents() == all[sz - left..] && line == all[..Least(sz - left, sz - skip)]
        invariant forall i :: 0 <= i < |nodes| ==> nodes[i] in olds
        invariant forall i :: 0 <= i < |spare| ==> spare[i] in olds || spare[i] in pool
        decreases |nodes|
      {
        Front();
        var bytes := |head.msg| - offset;
        ghost var h := head.msg[offset..];
        var kept := if left <= skip then 0 else left - skip;
        Grown(all, sz - left, h, Join(parts[1..]), Least(kept, bytes));
        line := line + head.msg[offset..][..Least(kept, bytes)];
        if bytes >= left {
          Further(all, sz - left, left);
          Advance(left);
          return;
        }
        Further(all, sz - left, bytes);
        Advance(bytes);
        left := left - bytes;
        Filled();
      }
    }

    /** `lpopbuffer` */
    method PopBuffer(sz: nat) returns (r: Option<bytes>)
      requires Valid()
      modifies this, nodes
      ensures Valid() && (r.None? <==> sz == 0 || |old(Contents())| < sz)
      ensures r.Some? ==> r.value == old(Contents())[..sz] && Contents() == old(Contents())[sz..]
      ensures r.None? ==> Contents() == old(Contents())
      ensures forall i :: 0 <= i < |nodes| ==> nodes[i] in old(nodes)
      ensures forall i :: 0 <= i < |spare| ==> spare[i] in old(nodes) || spare[i] in old(spare)
    {
      hide Linked, Contents, Join;
      if size < sz || sz == 0 {
        return None;
      }
      Filled();
      var s := PopString(sz, 0);
      size := size - sz;
      r := Some(s);
    }

    /** `check_sep`: whether the stream from this place on starts with `sep`, through as many blocks as needed. */
    method CheckSep(node: Node, from: nat, sep: bytes, ghost k: nat) returns (found: bool)
      requires Linked() && k < |nodes| && node == nodes[k] && from < |parts[k]|
      requires |sep| <= |Join(parts[k..])| - from
      ensures found == (Join(parts[k..])[from..][..|sep|] == sep)
    {
      hide Apart;
      var n, f: nat, left := node, from, sep;
      ghost var j := k;
      JoinFrom(parts, k);
      while true
        invariant k <= j < |nodes| && n == nodes[j] && f <= |parts[j]| && |left| <= |sep|
        invariant |left| <= |Join(parts[j..])| - f
        invariant (Join(parts[k..])[from..][..|sep|] == sep) == (Join(parts[j..])[f..][..|left|] == left)
        decreases |nodes| - j
      {
        JoinFrom(parts, j);
        var sz := |n.msg| - f;
        ghost var h, t := parts[j][f..], Join(parts[j + 1..]);
        DropJoin(parts[j], t, f);
        Compare(h, t, left);
        if sz >= |left| {
          return n.msg[f..f + |left|] == left;
        }
        if sz > 0 && n.msg[f..] != left[..sz] {
          return false;
        }
        assert Links(nodes, j);
        n, left, f := n.next, left[sz..], 0;
        j := j + 1;
        assert t[0..] == t;
      }
    }

    /** The loop of `lreadline`: the place of the first separator, wherever the blocks end. */
    method Find(sep: bytes) returns (found: bool, i: nat)
      requires Valid() && nodes != []
      ensures if found then First(Contents(), sep, i) else Absent(Contents(), sep)
    {
      hide Apart, Join, Absent, First, Holds, Links;
      ghost var c := Contents();
      found, i := false, 0;
      Front();
      var current, from: nat, bytes := head, offset, |head.msg| - offset;
      ghost var k: nat := 0;
      assert parts[0..] == parts && c[0..] == c;
      while i + |sep| <= size
        invariant k < |nodes| && current == nodes[k] && from < |parts[k]| && bytes == |parts[k]| - from
        invariant i < size && from <= |Join(parts[k..])| && Join(parts[k..])[from..] == c[i..]
        invariant forall j: nat :: j < i ==> !At(c, sep, j)
      {
        found := CheckSep(current, from, sep, k);
        assert found == At(c, sep, i) by { assert c[i..][..|sep|] == c[i..i + |sep|]; }
        if found {
          IsFirst(c, sep, i);
          return;
        }
        Onward(k, from, c, i);
        from := from + 1;
        bytes := bytes - 1;
        if bytes == 0 {
          current := current.next;
          from := 0;
          if current == null {
            break;
          }
          k := k + 1;
          bytes := |current.msg|;
        }
        i := i + 1;
      }
      NoneLeft(c, sep, i);
    }

    /** `lreadline`: the line before the first separator; with `check` it stays. */
    method ReadLine(sep: bytes, check: bool) returns (found: bool, line: bytes, ghost at: nat)
      requires Valid()
      modifies this, nodes
      ensures Valid() && (found <==> old(Contents()) != [] && !Absent(old(Contents()), sep))
      ensures found ==> First(old(Contents()), sep, at)
      ensures Contents() == if found && !check then old(Contents())[at + |sep|..] else old(Contents())
      ensures found && !check ==> line == old(Contents())[..at]
      ensures forall i :: 0 <= i < |nodes| ==> nodes[i] in old(nodes)
      ensures forall i :: 0 <= i < |spare| ==> spare[i] in old(nodes) || spare[i] in old(spare)
    {
      hide Linked, Contents, Join, First, Absent;
      found, line, at := false, [], 0;
      if head == null {
        Offset();
        Filled();
        return;
      }
      Offset();
      Filled();
      var i;
      found, i := Find(sep);
      at := i;
      if found { FirstIs(Contents(), sep, i); }
      if found && !check {
        line := PopString(i + |sep|, |sep|);
        size := size - (i + |sep|);
      }
    }

    /** The byte after a place is in the same block or is the first of the next one. */
    lemma Onward(k: nat, from: nat, c: bytes, i: nat)
      requires Linked() && k < |nodes| && from < |parts[k]| && from <= |Join(parts[k..])| && i < |c| && Join(parts[k..])[from..] == c[i..]
      ensures nodes[k].next == Nth(nodes, k + 1) && |parts| == |nodes|
      ensures from + 1 <= |Join(parts[k..])| && Join(parts[k..])[from + 1..] == c[i + 1..]
      ensures from + 1 < |parts[k]| || k + 1 < |nodes| ==> i + 1 < |c|
      ensures from + 1 == |parts[k]| && k + 1 < |nodes| ==> Join(parts[k + 1..]) == c[i + 1..] && parts[k + 1] != [] && nodes[k + 1].msg == parts[k + 1]
      ensures from + 1 == |parts[k]| && k + 1 == |nodes| ==> c[i + 1..] == []
    {
      JoinFrom(parts, k);
      assert Links(nodes, k);
      assert c[i..][1..] == c[i + 1..];
      assert Join(parts[k..])[from..][1..] == Join(parts[k..])[from + 1..];
      DropJoin(parts[k], Join(parts[k + 1..]), from + 1);
      if k + 1 < |nodes| { JoinFrom(parts, k + 1); }
    }
  }

  lemma IsFirst(c: bytes, sep: bytes, i: nat)
    requires At(c, sep, i) && forall j: nat :: j < i ==> !At(c, sep, j)
    ensures First(c, sep, i)
  {
  }

  lemma FirstIs(c: bytes, sep: bytes, i: nat)
    requires First(c, sep, i)
    ensures i + |sep| <= |c| && !Absent(c, sep)
  {
    assert At(c, sep, i);
  }

  lemma NoneLeft(c: bytes, sep: bytes, i: nat)
    requires (forall j: nat :: j < i ==> !At(c, sep, j)) && i <= |c|
    requires i + |sep| > |c| || (i < |c| && !At(c, sep, i) && c[i + 1..] == [])
    ensures Absent(c, sep)
  {
    assert c[i..i] == [];
  }

  function Least(a: nat, b: nat): nat { if a < b then a else b }

  lemma Grown(all: bytes, from: nat, h: bytes, t: bytes, n: nat)
    requires from <= |all| && all[from..] == h + t && n <= |h|
    ensures from + n <= |all| && all[..from] + h[..n] == all[..from + n]
  {
    assert h[..n] == all[from..][..n];
  }

  lemma Further(all: bytes, from: nat, n: nat)
    requires from + n <= |all|
    ensures all[from..][n..] == all[from + n..]
  {
  }

  /** Comparing across the end of a block. */
  lemma Compare(h: bytes, t: bytes, sep: bytes)
    requires |sep| <= |h| + |t|
    ensures |h| >= |sep| ==> (h + t)[..|sep|] == h[..|sep|]
    ensures |h| < |sep| ==> ((h + t)[..|sep|] == sep <==> h == sep[..|h|] && t[..|sep| - |h|] == sep[|h|..])
  {
    if |h| < |sep| {
      assert (h + t)[..|sep|] == h + t[..|sep| - |h|];
      assert sep == sep[..|h|] + sep[|h|..];
    }
  }
}
