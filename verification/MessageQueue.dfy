/**
 * The queue objects behind the scheduler: a ring of messages that doubles when full, and the global
 * list that chains queues through their `next` fields.
 */
module MessageQueue {
  import Scheduler

  type Msg = Scheduler.Msg

  const DEFAULT_QUEUE_SIZE := 64
  const MQ_OVERLOAD := 1024

  /** Position of the `i`-th message of a ring that starts at `head`. */
  function Slot(head: nat, i: nat, cap: nat): nat { if head + i < cap then head + i else head + i - cap }

  function Distance(head: nat, tail: nat, cap: nat): int { if head <= tail then tail - head else tail + cap - head }

  /** Messages of a ring, oldest first. */
  function Ring(q: seq<Msg>, head: nat, n: nat): (r: seq<Msg>)
    requires head < |q| && n <= |q|
    ensures |r| == n
  {
    seq(n, i requires 0 <= i < n => q[Slot(head, i, |q|)])
  }

  lemma RingPut(q: seq<Msg>, head: nat, n: nat, m: Msg)
    requires head < |q| && n < |q|
    ensures Ring(q[Slot(head, n, |q|) := m], head, n + 1) == Ring(q, head, n) + [m]
  {
  }

  lemma RingPop(q: seq<Msg>, head: nat, n: nat)
    requires head < |q| && 0 < n <= |q|
    ensures Ring(q, head, n) == [q[head]] + Ring(q, Slot(head, 1, |q|) % |q|, n - 1)
  {
    assert Slot(head, 1, |q|) % |q| == if head + 1 < |q| then head + 1 else 0;
  }

  lemma Wraps(k: nat, cap: nat)
    requires k < 2 * cap
    ensures k % cap == if k < cap then k else k - cap
  {
  }

  function Doublings(t: nat, k: nat): nat { if k == 0 then t else 2 * Doublings(t, k - 1) }

  ghost predicate DoubledTo(t: nat, t': nat) { exists k :: Doublings(t, k) == t' }

  lemma MoreDoubled(t: nat, t': nat)
    requires DoubledTo(t, t')
    ensures DoubledTo(t, 2 * t')
  {
    var k: nat :| Doublings(t, k) == t';
    assert Doublings(t, k + 1) == 2 * t';
  }

  /** `t'` is the least of `t`, twice `t` and so on that is not below the length. */
  ghost predicate LeastDoubled(t: nat, length: nat, t': nat) {
    DoubledTo(t, t') && length <= t' && 0 < t' && (t' == t || t' < 2 * length)
  }

  class Mq {
    var cap: nat
    var head: nat
    var tail: nat
    var release: bool
    var inGlobal: bool
    var overload: nat
    var threshold: nat
    var queue: array<Msg>
    var next: Mq?

    ghost predicate Valid()
      reads this, queue
    {
      && queue.Length == cap && 0 < cap && head < cap && tail < cap && 0 < threshold
    }

    ghost function Contents(): (s: seq<Msg>)
      requires Valid()
      reads this, queue
      ensures |s| == Distance(head, tail, cap)
    {
      Ring(queue[..], head, Distance(head, tail, cap))
    }

    /** `skynet_mq_create` */
    constructor ()
      ensures Valid() && fresh(queue) && Contents() == [] && inGlobal && !release && next == null
      ensures overload == 0 && threshold == 1024
    {
      cap, head, tail, release, inGlobal := DEFAULT_QUEUE_SIZE, 0, 0, false, true;
      overload, threshold, next := 0, MQ_OVERLOAD, null;
      queue := new Msg[DEFAULT_QUEUE_SIZE];
    }

    /** `skynet_mq_length` */
    method Length() returns (n: nat)
      requires Valid()
      ensures n == |Contents()|
    {
      if head <= tail {
        return tail - head;
      }
      return tail + cap - head;
    }

    /** `expand_queue`: the ring is full, and `head` and `tail` meet. */
    method Expand()
      requires Valid() && head == tail
      modifies this`cap, this`head, this`tail, this`queue
      ensures Valid() && fresh(queue) && cap == 2 * old(cap)
      ensures Contents() == Ring(old(queue[..]), old(head), old(cap))
    {
      var bigger := new Msg[cap * 2];
      ghost var ring := Ring(queue[..], head, cap);
      var i: nat := 0;
      while i < cap
        invariant unchanged(this) && i <= cap && bigger[..i] == ring[..i]
      {
        Wraps(head + i, cap);
        bigger[i] := queue[(head + i) % cap];
        i := i + 1;
      }
      head := 0;
      tail := cap;
      cap := cap * 2;
      queue := bigger;
      assert bigger[..][..tail] == ring;
      assert Ring(bigger[..], 0, tail) == bigger[..][..tail];
    }

    /** The ring part of `skynet_mq_push`. */
    method Put(m: Msg)
      requires Valid()
      modifies this`cap, this`head, this`tail, this`queue, queue
      ensures Valid() && Contents() == old(Contents()) + [m]
      ensures queue == old(queue) || fresh(queue)
    {
      ghost var n := Distance(head, tail, cap);
      RingPut(queue[..], head, n, m);
      queue[tail] := m;
      assert queue[..] == old(queue[..])[Slot(head, n, cap) := m];
      tail := tail + 1;
      if tail >= cap {
        tail := 0;
      }
      if head == tail {
        Expand();
      }
    }

    /** Remember the length when it passes the threshold, and raise the threshold. */
    method NoteOverload(length: nat)
      requires 0 < threshold
      modifies this`overload, this`threshold
      ensures LeastDoubled(old(threshold), length, threshold)
      ensures if length > old(threshold) then overload == length
              else overload == old(overload) && threshold == old(threshold)
    {
      assert Doublings(threshold, 0) == threshold;
      while length > threshold
        invariant 0 < threshold && DoubledTo(old(threshold), threshold)
        invariant threshold == old(threshold) || threshold < 2 * length
        invariant if threshold == old(threshold) then overload == old(overload) else overload == length
        invariant threshold == old(threshold) || length > old(threshold)
        decreases length - threshold
      {
        overload := length;
        MoreDoubled(old(threshold), threshold);
        threshold := threshold * 2;
      }
    }

    /** `skynet_mq_pop`; the message means nothing when the result is false. */
    method Pop() returns (ok: bool, message: Msg)
      requires Valid()
      modifies this`head, this`inGlobal, this`overload, this`threshold
      ensures Valid() && ok == (old(Contents()) != [])
      ensures ok ==> old(Contents()) == [message] + Contents() && inGlobal == old(inGlobal)
      ensures ok ==> if |Contents()| > old(threshold) then overload == |Contents()|
                     else overload == old(overload) && threshold == old(threshold)
      ensures ok ==> LeastDoubled(old(threshold), |Contents()|, threshold)
      ensures !ok ==> Contents() == [] && !inGlobal && threshold == 1024 && overload == old(overload)
    {
      message := 0;
      if head != tail {
        RingPop(queue[..], head, Distance(head, tail, cap));
        message := queue[head];
        head := head + 1;
        ok := true;
        if head >= cap {
          head := 0;
        }
        var length := tail - head;
        if length < 0 {
          length := length + cap;
        }
        NoteOverload(length);
      } else {
        threshold := MQ_OVERLOAD;
        ok := false;
        inGlobal := false;
      }
    }

    /** `skynet_mq_overload` */
    method Overload() returns (n: nat)
      modifies this`overload
      ensures n == old(overload) && overload == 0
    {
      n := 0;
      if overload != 0 {
        n := overload;
        overload := 0;
      }
    }
  }

  /** The list of scheduled queues, chained through `next`. */
  class GlobalQueue {
    var head: Mq?
    var tail: Mq?
    ghost var list: seq<Mq>

    ghost predicate Valid()
      reads this, list
    {
      && (forall i, j :: 0 <= i < j < |list| ==> list[i] != list[j])
      && (forall i, j :: 0 <= i && j == i + 1 && j < |list| ==> list[i].next == list[j])
      && (if list == [] then head == null && tail == null
          else head == list[0] && tail == list[|list| - 1] && list[|list| - 1].next == null)
    }

    constructor ()
      ensures Valid() && list == []
    {
      head, tail, list := null, null, [];
    }

    /** `skynet_globalmq_push` */
    method Push(q: Mq)
      requires Valid() && q.next == null && q !in list
      modifies this, list
      ensures Valid() && list == old(list) + [q]
      ensures forall x :: x in old(list) ==> unchanged(x`head, x`tail, x`cap, x`queue, x`inGlobal, x`release)
    {
      if tail != null {
        tail.next := q;
        tail := q;
      } else {
        head := q;
        tail := q;
      }
      list := list + [q];
    }

    /** `skynet_globalmq_pop` */
    method Pop() returns (q: Mq?)
      requires Valid()
      modifies this, list
      ensures Valid() && (q == null <==> old(list) == [])
      ensures q != null ==> [q] + list == old(list) && q.next == null
      ensures q == null ==> list == []
      ensures forall x :: x in old(list) ==> unchanged(x`head, x`tail, x`cap, x`queue, x`inGlobal, x`release)
    {
      q := head;
      if q != null {
        assert |list| > 1 ==> list[0].next == list[1];
        head := q.next;
        if head == null {
          assert q == tail;
          tail := null;
        }
        q.next := null;
        assert |list| > 1 ==> old(list[0].next) == old(list[1]);
        list := list[1..];
      }
    }
  }

  /** `skynet_mq_push`: the message goes in, and an unscheduled queue goes on the global list. */
  method MqPush(g: GlobalQueue, q: Mq, m: Msg)
    requires g.Valid() && q.Valid() && (!q.inGlobal ==> q.next == null && q !in g.list)
    modifies g, q, q.queue, g.list
    ensures g.Valid() && q.Valid() && q.Contents() == old(q.Contents()) + [m] && q.inGlobal
    ensures g.list == old(g.list) + (if old(q.inGlobal) then [] else [q])
  {
    q.Put(m);
    if !q.inGlobal {
      q.inGlobal := true;
      g.Push(q);
    }
  }

  /** `skynet_mq_mark_release` */
  method MarkRelease(g: GlobalQueue, q: Mq)
    requires g.Valid() && q.Valid() && !q.release && (!q.inGlobal ==> q.next == null && q !in g.list)
    modifies g, q`release, g.list
    ensures g.Valid() && q.release && g.list == old(g.list) + (if old(q.inGlobal) then [] else [q])
    ensures q.inGlobal == old(q.inGlobal) && q.Valid() && q.Contents() == old(q.Contents())
  {
    q.release := true;
    if !q.inGlobal {
      g.Push(q);
    }
  }

  /** `_drop_queue`, up to freeing: every message that is left is dropped, in order. */
  method DropQueue(q: Mq) returns (dropped: seq<Msg>)
    requires q.Valid()
    modifies q
    ensures q.Valid() && q.Contents() == [] && !q.inGlobal && dropped == old(q.Contents())
  {
    dropped := [];
    var ok, msg := q.Pop();
    while ok
      invariant q.Valid() && q.queue == old(q.queue)
      invariant old(q.Contents()) == if ok then dropped + [msg] + q.Contents() else dropped
      invariant !ok ==> q.Contents() == [] && !q.inGlobal
      decreases if ok then |q.Contents()| + 1 else 0
    {
      dropped := dropped + [msg];
      ok, msg := q.Pop();
    }
  }
}
