/**
 * The order of packets and their whereabouts: reading the wire, `dw_buffer`, the high list, the low
 * list and the pipe in a row, the packets of one sender and one priority are in the order of sending.
 */
module SocketOrder {
  import opened Words
  import opened SocketSend
  import opened SocketProof
  import opened SocketFrame

  predicate Same(p: Packet, q: Packet) { p.sender == q.sender && p.low == q.low }

  predicate Ordered(ps: seq<Packet>) {
    forall i, j :: 0 <= i < j < |ps| && Same(ps[i], ps[j]) ==> ps[i].n < ps[j].n
  }

  predicate Clear(ps: seq<Packet>, w: nat) { forall i :: 0 <= i < |ps| ==> ps[i].sender != w }

  function Opt(dw: Option<Buf>): seq<Packet> { if dw.Some? then [dw.value.pkt] else [] }

  function Queued(so: Sock): seq<Packet> { Opt(so.dw) + (Packets(so.high) + Packets(so.low)) }

  function Line(st: State): seq<Packet> { st.log.done + (Queued(st.so) + Sent(st.pipe)) }

  predicate HasHand(pc: Pc) {
    pc.Entry? || pc.Check? || pc.TryLock? || pc.Direct? || pc.Stash? || pc.UnlockQueue? || pc.Inc? || pc.Push?
  }

  /** Packets of thread `w` that have left its hands are numbered below this. */
  function Bound(st: State, w: nat): nat
    requires w < |st.ws| == |st.next|
  {
    if HasHand(st.ws[w]) then st.ws[w].pkt.n else st.next[w]
  }

  predicate Hands(st: State) {
    && |st.ws| == |st.next|
    && (forall w :: 0 <= w < |st.ws| && HasHand(st.ws[w]) ==>
          st.ws[w].pkt.sender == w && st.ws[w].pkt.n + 1 == st.next[w])
  }

  predicate Below(ps: seq<Packet>, st: State)
    requires |st.ws| == |st.next|
  {
    forall i :: 0 <= i < |ps| ==> ps[i].sender < |st.ws| && ps[i].n < Bound(st, ps[i].sender)
  }

  predicate InOrder(st: State) {
    Hands(st) && Ordered(Line(st)) && Below(Line(st), st)
  }

  // ---- what a thread knows about its own earlier packets

  predicate PastDw(pc: Pc) {
    || (pc.Check? && (pc.second || pc.stage.Sending? || pc.stage == Type(false)))
    || pc.TryLock? || pc.Direct? || pc.Stash?
  }

  predicate PastSending(pc: Pc) {
    || (pc.Check? && (pc.second || pc.stage == Type(false)))
    || pc.TryLock? || pc.Direct? || pc.Stash?
  }

  predicate Knows(so: Sock, sent: seq<Packet>, pc: Pc, w: nat) {
    && (PastDw(pc) ==> Clear(Opt(so.dw), w))
    && (PastSending(pc) ==> Clear(sent, w))
    && (SawHigh(pc) ==> Clear(Packets(so.high), w))
    && (SawLow(pc) ==> Clear(Packets(so.low), w))
  }

  predicate AllKnow(st: State) {
    forall w :: 0 <= w < |st.ws| ==> Knows(st.so, Sent(st.pipe), st.ws[w], w)
  }

  lemma KnowsCheck(so: Sock, sending: nat, sent: seq<Packet>, pc: Pc, w: nat)
    requires PcShape(so, pc) && Knows(so, sent, pc, w) && pc.Check? && |sent| <= sending
    ensures Knows(so, sent, After(pc, Test(so, sending, pc.stage)), w)
  {
  }

  lemma KnowsOthers(st: State, w: nat, pc: Pc, st': State)
    requires AllKnow(st) && w < |st.ws| && st'.ws == st.ws[w := pc]
    requires st'.so.high == st.so.high && st'.so.low == st.so.low
    requires forall v :: 0 <= v < |st.ws| && v != w && Clear(Opt(st.so.dw), v) ==> Clear(Opt(st'.so.dw), v)
    requires forall v :: 0 <= v < |st.ws| && v != w && Clear(Sent(st.pipe), v) ==> Clear(Sent(st'.pipe), v)
    requires Knows(st'.so, Sent(st'.pipe), pc, w)
    ensures AllKnow(st')
  {
    hide PastDw, PastSending, SawHigh, SawLow, Clear, Sent;
    forall v | 0 <= v < |st'.ws| && v != w ensures Knows(st'.so, Sent(st'.pipe), st'.ws[v], v) {
      assert Knows(st.so, Sent(st.pipe), st.ws[v], v);
    }
  }

  lemma KnowsGo(st: State, w: nat, n: nat)
    requires Shape(st) && Announced(st) && Hands(st) && AllKnow(st) && w < |st.ws|
    ensures AllKnow(WorkerGo(st, w, n))
  {
    hide Sent, Put, ListShape, Pushing, After;
    var st' := WorkerGo(st, w, n);
    var pc := st.ws[w];
    assert Knows(st.so, Sent(st.pipe), pc, w) && PcShape(st.so, pc);
    SentPush(st.pipe, Trigger);
    if pc.Check? {
      KnowsCheck(st.so, st.sending, Sent(st.pipe), pc, w);
    } else if pc.Push? {
      SentPush(st.pipe, Send(pc.pkt));
    }
    assert st'.ws == st.ws[w := st'.ws[w]];
    KnowsOthers(st, w, st'.ws[w], st');
  }

  lemma ClearNone(v: nat)
    ensures Clear(Opt(None), v)
  {
  }

  lemma KnowsServer(st: State, st': State)
    requires AllKnow(st) && Locked(st) && st'.ws == st.ws
    requires st'.so.dw == st.so.dw || st'.so.dw.None?
    requires forall v :: Clear(Sent(st.pipe), v) ==> Clear(Sent(st'.pipe), v)
    requires st.lock.Worker? ==>
      forall v :: Clear(Sent(st.pipe), v) ==>
        && (Clear(Packets(st.so.high), v) ==> Clear(Packets(st'.so.high), v))
        && (Clear(Packets(st.so.low), v) ==> Clear(Packets(st'.so.low), v))
    ensures AllKnow(st')
  {
    hide Clear, Sent;
    forall v | 0 <= v < |st'.ws| ensures Knows(st'.so, Sent(st'.pipe), st'.ws[v], v) {
      assert Knows(st.so, Sent(st.pipe), st.ws[v], v);
      ClearNone(v);
    }
  }

  lemma ClearSplit(a: seq<Packet>, b: seq<Packet>, w: nat)
    requires Clear(a + b, w)
    ensures Clear(a, w) && Clear(b, w)
  {
    forall i | 0 <= i < |b| ensures b[i].sender != w { assert (a + b)[|a| + i] == b[i]; }
    forall i | 0 <= i < |a| ensures a[i].sender != w { assert (a + b)[i] == a[i]; }
  }

  lemma KnowsHandle(st: State)
    requires AllKnow(st) && Locked(st)
    ensures AllKnow(ServerHandle(st))
  {
    hide Sent, AllKnow;
    if st.pipe != [] {
      SentHead(st.pipe);
      var st' := ServerHandle(st);
      forall v | Clear(Sent(st.pipe), v)
        ensures Clear(Sent(st'.pipe), v)
        ensures Clear(Packets(st.so.high), v) ==> Clear(Packets(st'.so.high), v)
        ensures Clear(Packets(st.so.low), v) ==> Clear(Packets(st'.so.low), v)
      {
        ClearSplit(Payload(st.pipe[0]), Sent(st.pipe[1..]), v);
        if st.pipe[0].Send? {
          assert Payload(st.pipe[0])[0].sender != v;
          PacketsPush(st.so.high, st.pipe[0].pkt);
          PacketsPush(st.so.low, st.pipe[0].pkt);
        }
      }
      KnowsServer(st, st');
    }
  }

  lemma KnowsBegin(st: State, w: nat, low: bool, data: seq<byte>)
    requires Locked(st) && Apply(st, Begin(w, low, data)) != st
    ensures var st' := Apply(st, Begin(w, low, data)); w < |st'.ws| && Knows(st'.so, Sent(st'.pipe), st'.ws[w], w)
  {
    hide Sent;
  }

  lemma KnowsKept(st: State, a: Action)
    requires Locked(st) && Shape(st) && Announced(st) && Hands(st) && AllKnow(st)
    ensures AllKnow(Apply(st, a))
  {
    hide Sent, WorkerGo, Shape, Announced, ServerHandle, SendHigh, SendLow, Knows;
    match a
    case Begin(w, low, data) =>
      var st' := Apply(st, a);
      if st' != st {
        KnowsBegin(st, w, low, data);
        KnowsOthers(st, w, st'.ws[w], st');
      }
    case Go(w, n) => if w < |st.ws| { KnowsGo(st, w, n); }
    case Handle => KnowsHandle(st);
    case Io(r) =>
      ServerKeepsCount(st, r);
      KnowsIo(st, r);
    case _ => KnowsServer(st, Apply(st, a));
  }

  lemma KnowsIo(st: State, r: Io)
    requires Locked(st) && AllKnow(st)
    ensures AllKnow(ServerIo(st, r))
  {
    hide Sent, AllKnow, Clear, Put;
    if Sends(st.sv) {
      ServerKeepsCount(st, r);
      assert ServerIo(st, r).so.dw == st.so.dw || ServerIo(st, r).so.dw.None?;
      KnowsServer(st, ServerIo(st, r));
    }
  }

  // ---- rearranging a row of packets

  lemma Insert(a: seq<Packet>, x: Packet, b: seq<Packet>)
    requires Ordered(a + b)
    requires forall i :: 0 <= i < |a| && Same(a[i], x) ==> a[i].n < x.n
    requires Clear(b, x.sender)
    ensures Ordered(a + ([x] + b))
  {
    var r := a + ([x] + b);
    forall i, j | 0 <= i < j < |r| && Same(r[i], r[j]) ensures r[i].n < r[j].n {
      var k := |a|;
      if i != k && j != k {
        assert r[i] == (a + b)[if i < k then i else i - 1];
        assert r[j] == (a + b)[if j < k then j else j - 1];
      }
    }
  }

  lemma Remove(a: seq<Packet>, m: seq<Packet>, b: seq<Packet>)
    requires Ordered(a + (m + b))
    ensures Ordered(a + b)
    ensures forall p :: p in m ==> p !in a + b
  {
    var r, t := a + (m + b), a + b;
    forall i, j | 0 <= i < j < |t| && Same(t[i], t[j]) ensures t[i].n < t[j].n {
      assert t[i] == r[if i < |a| then i else i + |m|];
      assert t[j] == r[if j < |a| then j else j + |m|];
    }
    forall k, i | 0 <= k < |m| && 0 <= i < |t| ensures t[i] != m[k] {
      assert r[|a| + k] == m[k] && Same(m[k], m[k]);
      assert t[i] == r[if i < |a| then i else i + |m|];
    }
  }

  /** A packet may pass packets of the other priority. */
  lemma Hop(a: seq<Packet>, b: seq<Packet>, x: Packet, c: seq<Packet>)
    requires Ordered(a + (b + ([x] + c)))
    requires forall i :: 0 <= i < |b| ==> !Same(b[i], x)
    ensures Ordered(a + ([x] + (b + c)))
  {
    var r, t := a + (b + ([x] + c)), a + ([x] + (b + c));
    var k := |a|;
    forall i, j | 0 <= i < j < |t| && Same(t[i], t[j]) ensures t[i].n < t[j].n {
      var i' := if i < k || i > k + |b| then i else if i == k then k + |b| else i - 1;
      var j' := if j < k || j > k + |b| then j else if j == k then k + |b| else j - 1;
      assert t[i] == r[i'] && t[j] == r[j'];
    }
  }

  // ---- every step keeps the order

  /** The row may lose packets, each of them to `dropped`, and swap packets of different priority. */
  predicate Moved(st: State, st': State) {
    && Ordered(Line(st'))
    && (forall p :: p in Line(st') ==> p in Line(st))
    && st.log.dropped <= st'.log.dropped
    && (forall p :: p in Line(st) && p !in Line(st') ==> p in st'.log.dropped)
    && (forall p :: p in st'.log.dropped && p !in st.log.dropped ==> p in Line(st) && p !in Line(st'))
  }

  lemma PacketsSplit(a: seq<Buf>, b: seq<Buf>)
    ensures Packets(a + b) == Packets(a) + Packets(b)
  {
  }

  /** The row, spelled out. */
  function Row(d: seq<Packet>, o: seq<Packet>, h: seq<Packet>, l: seq<Packet>, s: seq<Packet>): seq<Packet> {
    d + ((o + (h + l)) + s)
  }

  lemma RowHigh(d: seq<Packet>, o: seq<Packet>, h: seq<Packet>, l: seq<Packet>, p: Packet, s: seq<Packet>)
    requires Ordered(Row(d, o, h, l, [p] + s)) && forall i :: 0 <= i < |l| ==> !Same(l[i], p)
    ensures Ordered(Row(d, o, h + [p], l, s))
    ensures forall q :: q in Row(d, o, h, l, [p] + s) <==> q in Row(d, o, h + [p], l, s)
  {
    hide Ordered;
    var a := d + (o + h);
    assert Row(d, o, h, l, [p] + s) == a + (l + ([p] + s));
    assert Row(d, o, h + [p], l, s) == a + ([p] + (l + s));
    Hop(a, l, p, s);
  }

  lemma RowLow(d: seq<Packet>, o: seq<Packet>, h: seq<Packet>, l: seq<Packet>, p: Packet, s: seq<Packet>)
    ensures Row(d, o, h, l, [p] + s) == Row(d, o, h, l + [p], s)
    ensures l == [] ==> Row(d, o, h, l, [p] + s) == Row(d, o, h + [p], l, s)
  {
  }

  lemma RowDrop(d: seq<Packet>, o: seq<Packet>, h: seq<Packet>, l: seq<Packet>, p: Packet, s: seq<Packet>)
    requires Ordered(Row(d, o, h, l, [p] + s))
    ensures Ordered(Row(d, o, h, l, s)) && p !in Row(d, o, h, l, s)
    ensures forall q :: q in Row(d, o, h, l, [p] + s) <==> q == p || q in Row(d, o, h, l, s)
  {
    hide Ordered;
    var a := d + (o + (h + l));
    assert Row(d, o, h, l, [p] + s) == a + ([p] + s);
    assert Row(d, o, h, l, s) == a + s;
    Remove(a, [p], s);
  }

  lemma RowDone(d: seq<Packet>, p: Packet, h: seq<Packet>, l: seq<Packet>, s: seq<Packet>)
    ensures Row(d + [p], [], h, l, s) == Row(d, [], [p] + h, l, s)
    ensures Row(d + [p], [], [], l, s) == Row(d, [], [], [p] + l, s)
  {
  }

  lemma LineRow(st: State)
    ensures Line(st) == Row(st.log.done, Opt(st.so.dw), Packets(st.so.high), Packets(st.so.low), Sent(st.pipe))
  {
  }

  lemma PacketsPush(bs: seq<Buf>, p: Packet)
    ensures Packets(bs + [Buf(p, 0)]) == Packets(bs) + [p]
  {
  }

  lemma MovedHandle(st: State)
    requires Shape(st) && Ordered(Line(st))
    ensures Moved(st, ServerHandle(st))
  {
    hide Ordered, PcShape, Sent, Line, Row, Packets, HeadOnly, Whole;
    var st' := ServerHandle(st);
    LineRow(st);
    LineRow(st');
    if st.sv == SIdle && st.pipe != [] {
      SentHead(st.pipe);
      var rest := Sent(st.pipe[1..]);
      var d, o, h, l := st.log.done, Opt(st.so.dw), Packets(st.so.high), Packets(st.so.low);
      if st.pipe[0].Trigger? {
        assert [] + rest == rest;
      } else {
        var p := st.pipe[0].pkt;
        PacketsPush(st.so.high, p);
        PacketsPush(st.so.low, p);
        if Refuses(st.so) {
          RowDrop(d, o, h, l, p, rest);
        } else if !p.low {
          assert forall i :: 0 <= i < |l| ==> !Same(l[i], p) by { LowPackets(st.so); }
          RowHigh(d, o, h, l, p, rest);
        } else {
          RowLow(d, o, h, l, p, rest);
        }
      }
    }
  }

  lemma LowPackets(so: Sock)
    requires forall i :: 0 <= i < |so.low| ==> so.low[i].pkt.low
    ensures forall i :: 0 <= i < |so.low| ==> Packets(so.low)[i].low
  {
  }

  lemma MovedTrySend(st: State)
    requires Ordered(Line(st))
    ensures Moved(st, ServerTrySend(st))
  {
    hide Ordered, Sent;
    if st.so.dw.Some? {
      PacketsSplit([st.so.dw.value], st.so.high);
      assert Packets([st.so.dw.value]) == [st.so.dw.value.pkt];
    }
    assert Line(ServerTrySend(st)) == Line(st);
  }

  /** Dropping all that is queued. */
  lemma MovedClose(st: State, st': State, m: seq<Packet>)
    requires Ordered(Line(st)) && st'.pipe == st.pipe && st'.log.done == st.log.done
    requires Queued(st.so) == Queued(st'.so) + m || Queued(st.so) == m + Queued(st'.so)
    requires st'.log.dropped == st.log.dropped + SetOf(m)
    ensures Moved(st, st')
  {
    hide Ordered, Sent, Queued;
    var a, q, b := st.log.done, Queued(st'.so), Sent(st.pipe);
    if Queued(st.so) == q + m {
      assert Line(st) == (a + q) + (m + b) && Line(st') == (a + q) + b;
      Remove(a + q, m, b);
    } else {
      assert Line(st) == a + (m + (q + b)) && Line(st') == a + (q + b);
      Remove(a, m, q + b);
    }
  }

  lemma ClosedLists(so: Sock)
    ensures Queued(so) == Queued(FreeLists(so)) + (Packets(so.high) + Packets(so.low))
    ensures Pending(so) == SetOf(Packets(so.high) + Packets(so.low))
    ensures Pending(so) + Stashed(so) == SetOf(Queued(so))
    ensures Queued(CloseFd(FreeLists(so))) == []
    ensures Stashed(so) == SetOf(Opt(so.dw))
    ensures so.high == [] && so.low == [] ==> Queued(so) == Opt(so.dw)
  {
  }

  lemma MovedFree(st: State)
    requires Ordered(Line(st)) && Shape(st)
    ensures Moved(st, ServerFree(st)) && Moved(st, ServerFinish(st)) && Moved(st, ForceClose(st))
  {
    hide Ordered, Sent, Queued, Pending, Stashed, PcShape;
    ClosedLists(st.so);
    MovedClose(st, ForceClose(st), Queued(st.so));
    if st.sv == SIdle && st.so.kind != Invalid {
      MovedClose(st, ServerFree(st), Packets(st.so.high) + Packets(st.so.low));
    } else {
      assert Line(ServerFree(st)) == Line(st);
    }
    if st.sv == SFreed && st.lock.Free? {
      ClosedLists(CloseFd(st.so));
      MovedClose(st, ServerFinish(st), Opt(st.so.dw));
    } else {
      assert Line(ServerFinish(st)) == Line(st);
    }
  }

  lemma PacketsHead(bs: seq<Buf>, n: nat)
    requires bs != []
    ensures Packets(bs) == [bs[0].pkt] + Packets(bs[1..])
    ensures n != Left(bs[0]) ==> Packets(Consume(bs, n)) == Packets(bs)
  {
  }

  lemma MovedWrite(st: State, r: Io)
    requires Locked(st) && Shape(st) && Ordered(Line(st)) && (st.sv.SHigh? || st.sv.SLow?) && r.Wrote?
    ensures Moved(st, ServerIo(st, r))
  {
    hide Ordered, Sent, PcShape, Line, Row, Packets, HeadOnly, Whole, Left;
    var st' := ServerIo(st, r);
    LineRow(st);
    LineRow(st');
    if st.sv.SHigh? && CanWrite(st.so.high, r.n) {
      PacketsHead(st.so.high, r.n);
      RowDone(st.log.done, st.so.high[0].pkt, Packets(st.so.high[1..]), Packets(st.so.low), Sent(st.pipe));
    } else if st.sv.SLow? && CanWrite(st.so.low, r.n) {
      PacketsHead(st.so.low, r.n);
      assert Packets(st.so.high) == [];
      RowDone(st.log.done, st.so.low[0].pkt, [], Packets(st.so.low[1..]), Sent(st.pipe));
    }
    assert Line(st') == Line(st);
  }

  lemma MovedRaise(st: State)
    requires Shape(st) && Ordered(Line(st)) && st.sv.SRaise?
    ensures Moved(st, Raise(st))
  {
    hide Ordered, Sent, PcShape, Line, Row, Packets, HeadOnly, Whole;
    var st' := Raise(st);
    LineRow(st);
    LineRow(st');
    if st' != st.(sv := SUnlock) { RaiseRow(st.so); }
    RowLift(st.log.done, Opt(st.so.dw), Packets(st.so.high), Packets(st.so.low), Sent(st.pipe));
    RowLift(st.log.done, Opt(st.so.dw), Packets(st'.so.high), Packets(st'.so.low), Sent(st.pipe));
  }

  lemma RaiseRow(so: Sock)
    requires so.high == [] && so.low != []
    ensures Packets([so.low[0]]) + Packets(so.low[1..]) == Packets(so.high) + Packets(so.low)
  {
  }

  lemma RowLift(d: seq<Packet>, o: seq<Packet>, h: seq<Packet>, l: seq<Packet>, s: seq<Packet>)
    ensures Row(d, o, h, l, s) == d + ((o + (h + l)) + s)
  {
  }

  lemma MovedIo(st: State, r: Io)
    requires Locked(st) && Shape(st) && Ordered(Line(st))
    ensures Moved(st, ServerIo(st, r))
  {
    hide Ordered, Shape, Locked, SendHigh, SendLow, Raise, Sent, Pending, Stashed;
    MovedFree(st);
    var st' := ServerIo(st, r);
    if (st.sv.SHigh? || st.sv.SLow?) && r.Wrote? {
      MovedWrite(st, r);
    } else if st.sv.SRaise? {
      MovedRaise(st);
    } else if st.sv.SHigh? || st.sv.SLow? {
      MovedError(st, r);
    } else if st' != ForceClose(st) {
      assert Line(st') == Line(st);
    }
  }

  lemma MovedError(st: State, r: Io)
    requires Shape(st) && Ordered(Line(st)) && (st.sv.SHigh? || st.sv.SLow?) && !r.Wrote?
    ensures Moved(st, ServerIo(st, r))
  {
    hide Ordered, Shape, ForceClose, Sent;
    MovedFree(st);
    var st' := ServerIo(st, r);
    if st' != ForceClose(st) { assert Line(st') == Line(st); }
  }

  /** The socket thread never reorders packets of one sender and one priority. */
  lemma MovedServer(st: State, a: Action)
    requires Locked(st) && Shape(st) && Ordered(Line(st)) && !a.Begin? && !a.Go?
    ensures Moved(st, Apply(st, a))
  {
    hide Ordered, Shape, Locked, ServerIo, ServerHandle, ServerTrySend, ServerFree, ServerFinish, Sent;
    match a
    case Io(r) => MovedIo(st, r);
    case Handle => MovedHandle(st);
    case TrySend => MovedTrySend(st);
    case Free => MovedFree(st);
    case Finish => MovedFree(st);
    case Dec => assert Line(Apply(st, a)) == Line(st);
    case Shut(_) => assert Line(Apply(st, a)) == Line(st);
    case Open => assert Line(Apply(st, a)) == Line(st);
    case _ =>
  }

  lemma EnterFront(st: State, w: nat)
    requires Locked(st) && Shape(st) && InOrder(st) && AllKnow(st) && w < |st.ws|
    requires st.ws[w].Direct? || st.ws[w].Stash?
    ensures Ordered(st.log.done + ([st.ws[w].pkt] + (Queued(st.so) + Sent(st.pipe))))
    ensures st.so.dw.None?
  {
    hide Ordered, Sent, Packets, ListShape;
    var pc, d := st.ws[w], st.log.done;
    assert PcShape(st.so, pc) && Knows(st.so, Sent(st.pipe), pc, w);
    var rest := Queued(st.so) + Sent(st.pipe);
    assert Clear(rest, pc.pkt.sender);
    assert forall i :: 0 <= i < |d| ==> d[i] == Line(st)[i];
    Insert(d, pc.pkt, rest);
  }

  /** The packet in the hands of thread `w` enters the row. */
  ghost predicate Enters(st: State, st': State, w: nat)
    requires w < |st.ws| && HasHand(st.ws[w])
  {
    Ordered(Line(st')) && forall p :: p in Line(st') <==> p in Line(st) || p == st.ws[w].pkt
  }

  lemma EntersFront(st: State, w: nat, n: nat)
    requires Locked(st) && Shape(st) && InOrder(st) && AllKnow(st) && w < |st.ws|
    requires (st.ws[w].Direct? && n == |st.ws[w].pkt.data|) || st.ws[w].Stash?
    ensures Enters(st, WorkerGo(st, w, n), w)
  {
    hide Ordered, Sent, Shape, AllKnow, Packets;
    EnterFront(st, w);
    var st' := WorkerGo(st, w, n);
    var pc := st.ws[w];
    if pc.Stash? {
      assert Queued(st'.so) == [pc.pkt] + Queued(st.so);
    }
    assert Line(st') == st.log.done + ([pc.pkt] + (Queued(st.so) + Sent(st.pipe)));
  }

  lemma EntersPush(st: State, w: nat)
    requires InOrder(st) && w < |st.ws| && st.ws[w].Push?
    ensures Enters(st, WorkerGo(st, w, 0), w)
  {
    hide Ordered, Sent, Queued;
    var pc := st.ws[w];
    SentPush(st.pipe, Send(pc.pkt));
    assert Line(WorkerGo(st, w, 0)) == Line(st) + ([pc.pkt] + []);
    assert Line(st) + [] == Line(st);
    Insert(Line(st), pc.pkt, []);
  }

  lemma LineSame(st: State, w: nat, n: nat)
    requires w < |st.ws| && !st.ws[w].Stash? && !st.ws[w].Push? && !(st.ws[w].Direct? && n == |st.ws[w].pkt.data|)
    ensures Line(WorkerGo(st, w, n)) == Line(st)
  {
    hide Sent, After;
    SentPush(st.pipe, Trigger);
  }

  // ---- every accepted packet is in exactly one place

  predicate InHand(st: State, p: Packet) {
    p.sender < |st.ws| && HasHand(st.ws[p.sender]) && st.ws[p.sender].pkt == p
  }

  ghost predicate Accounted(st: State) {
    && |st.ws| == |st.next|
    && (forall p :: p in st.log.taken <==> p in Line(st) || p in st.log.dropped || InHand(st, p))
    && (forall p :: p in st.log.dropped ==>
          p !in Line(st) && p.sender < |st.ws| && p.n < Bound(st, p.sender))
  }

  lemma ServerKeeps(st: State, a: Action)
    requires !a.Begin? && !a.Go?
    ensures Apply(st, a).ws == st.ws && Apply(st, a).next == st.next && Apply(st, a).log.taken == st.log.taken
  {
    hide Pending, Stashed;
  }

  lemma MovedKeeps(st: State, st': State)
    requires InOrder(st) && Accounted(st) && Moved(st, st')
    requires st'.ws == st.ws && st'.next == st.next && st'.log.taken == st.log.taken
    ensures InOrder(st') && Accounted(st')
  {
    hide Line, Ordered;
    var l, l' := Line(st), Line(st');
    forall i | 0 <= i < |l'| ensures l'[i].sender < |st.ws| && l'[i].n < Bound(st', l'[i].sender) {
      assert l'[i] in l;
      var k :| 0 <= k < |l| && l[k] == l'[i];
    }
    assert forall p :: InHand(st', p) == InHand(st, p);
    forall p | p in st'.log.dropped ensures p !in l' && p.sender < |st.ws| && p.n < Bound(st, p.sender) {
      if p !in st.log.dropped { var k :| 0 <= k < |l| && l[k] == p; }
    }
  }

  lemma SameKeeps(st: State, st': State, w: nat)
    requires InOrder(st) && Accounted(st) && w < |st.ws| && Line(st') == Line(st)
    requires |st'.ws| == |st.ws| && st'.ws == st.ws[w := st'.ws[w]] && st'.next == st.next && st'.log.taken == st.log.taken
    requires if HasHand(st'.ws[w]) then HasHand(st.ws[w]) && st'.ws[w].pkt == st.ws[w].pkt && st'.log.dropped == st.log.dropped
             else st'.log.dropped == st.log.dropped + (if HasHand(st.ws[w]) then {st.ws[w].pkt} else {})
    ensures InOrder(st') && Accounted(st')
  {
    hide Line, Ordered;
    forall v | 0 <= v < |st.ws| ensures Bound(st, v) <= Bound(st', v) {}
    var p := if HasHand(st.ws[w]) then Some(st.ws[w].pkt) else None;
    if p.Some? {
      assert p.value.sender == w && p.value.n == Bound(st, w);
      assert p.value !in Line(st);
    }
    assert forall q: Packet :: q.sender != w ==> InHand(st', q) == InHand(st, q);
  }

  lemma EntersKeeps(st: State, st': State, w: nat)
    requires InOrder(st) && Accounted(st) && w < |st.ws| && HasHand(st.ws[w]) && Enters(st, st', w)
    requires |st'.ws| == |st.ws| && st'.ws == st.ws[w := st'.ws[w]] && st'.next == st.next && st'.log.taken == st.log.taken
    requires st'.log.dropped == st.log.dropped && !HasHand(st'.ws[w])
    ensures InOrder(st') && Accounted(st')
  {
    hide Line, Ordered;
    var l, l', p := Line(st), Line(st'), st.ws[w].pkt;
    forall i | 0 <= i < |l'| ensures l'[i].sender < |st.ws| && l'[i].n < Bound(st', l'[i].sender) {
      assert l'[i] in l';
      if l'[i] != p { var k :| 0 <= k < |l| && l[k] == l'[i]; }
    }
    assert forall q: Packet :: q.sender != w ==> InHand(st', q) == InHand(st, q);
    assert p.sender == w && p.n == Bound(st, w);
  }

  lemma BeginKeeps(st: State, w: nat, low: bool, data: seq<byte>)
    requires InOrder(st) && Accounted(st)
    ensures InOrder(WorkerBegin(st, w, low, data)) && Accounted(WorkerBegin(st, w, low, data))
  {
    hide Ordered;
    var st' := WorkerBegin(st, w, low, data);
    assert Line(st') == Line(st);
    hide Line;
    if st' != st {
      forall v | 0 <= v < |st.ws| ensures Bound(st, v) <= Bound(st', v) {}
      assert forall q: Packet :: q.sender != w ==> InHand(st', q) == InHand(st, q);
    }
  }

  lemma OrderGo(st: State, w: nat, n: nat)
    requires Locked(st) && Shape(st) && AllKnow(st) && InOrder(st) && Accounted(st) && w < |st.ws|
    ensures InOrder(WorkerGo(st, w, n)) && Accounted(WorkerGo(st, w, n))
  {
    hide Locked, Shape, AllKnow, InOrder, Accounted, Enters, Line;
    var st' := WorkerGo(st, w, n);
    var pc := st.ws[w];
    assert st'.ws == st.ws[w := st'.ws[w]];
    if pc.Stash? || (pc.Direct? && n == |pc.pkt.data|) {
      EntersFront(st, w, n);
      EntersKeeps(st, st', w);
    } else if pc.Push? {
      EntersPush(st, w);
      EntersKeeps(st, st', w);
    } else {
      LineSame(st, w, n);
      SameKeeps(st, st', w);
    }
  }

  lemma OrderKept(st: State, a: Action)
    requires Locked(st) && Shape(st) && AllKnow(st) && InOrder(st) && Accounted(st)
    ensures InOrder(Apply(st, a)) && Accounted(Apply(st, a))
  {
    hide Locked, Shape, AllKnow, Accounted, Moved, WorkerGo, WorkerBegin, Line;
    match a
    case Begin(w, low, data) => BeginKeeps(st, w, low, data);
    case Go(w, n) => if w < |st.ws| { OrderGo(st, w, n); }
    case _ =>
      hide Apply;
      MovedServer(st, a);
      ServerKeeps(st, a);
      MovedKeeps(st, Apply(st, a));
  }
}
