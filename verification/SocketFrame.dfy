/**
 * The bytes of one packet stay together on the wire, `wb_size` counts what is queued, and `sending`
 * covers the packets on their way through the pipe.
 */
module SocketFrame {
  import opened Words
  import opened SocketSend
  import opened SocketProof

  /** The wire is a row of whole packets and then a proper part of one more. */
  predicate Framed(log: Log) {
    && log.wire == Flat(log.done) + Written(log.part)
    && (log.part.Some? ==> 0 < log.part.value.off < |log.part.value.pkt.data|)
  }

  lemma Extend(f: seq<byte>, d: seq<byte>, i: nat, j: nat)
    requires i <= j <= |d|
    ensures (f + d[..i]) + d[i..j] == f + d[..j]
  {
  }

  lemma FlatPush(ps: seq<Packet>, p: Packet)
    ensures Flat(ps + [p]) == Flat(ps) + p.data
  {
    assert (ps + [p])[..|ps|] == ps;
  }

  /** Continuing the cut packet, or starting one when none is cut, keeps the framing. */
  lemma PutFramed(log: Log, b: Buf, n: nat)
    requires Framed(log) && n <= Left(b) && b.off <= |b.pkt.data|
    requires if b.off == 0 then log.part.None? || n == 0 else log.part == Some(b)
    ensures Framed(Put(log, b, n))
  {
    hide Flat;
    var data := b.pkt.data;
    if n == 0 {
      PutNothing(log, b);
    } else {
      assert log.wire == Flat(log.done) + data[..b.off] by { assert data[..0] == []; }
      Extend(Flat(log.done), data, b.off, b.off + n);
      if n == Left(b) { FlatPush(log.done, b.pkt); }
      assert data[..|data|] == data && Flat(log.done) + data + [] == Flat(log.done) + data;
    }
  }

  /** Writing nothing changes something only for an empty packet, which is then done. */
  lemma PutNothing(log: Log, b: Buf)
    requires Framed(log) && b.off <= |b.pkt.data|
    requires if b.off == 0 then true else log.part == Some(b)
    ensures Framed(Put(log, b, 0))
  {
    hide Flat;
    var data := b.pkt.data;
    assert log.wire + data[b.off..b.off] == log.wire;
    if Left(b) == 0 {
      FlatPush(log.done, b.pkt);
      assert data == [] && Flat(log.done) + [] == Flat(log.done);
    }
  }

  /** More bytes are on the wire than finished packets and the cut one account for. */
  predicate Long(log: Log) { |log.wire| > |Flat(log.done)| + |Written(log.part)| }

  lemma LongBreaks(log: Log)
    requires Long(log)
    ensures !Framed(log)
  {
    hide Flat;
  }

  /** Starting a packet behind a cut one breaks the framing. */
  lemma PutTears(log: Log, b: Buf, n: nat)
    requires Framed(log) && log.part.Some? && b.off == 0 && 0 < n <= |b.pkt.data|
    ensures Long(Put(log, b, n))
  {
    hide Flat;
    FlatPush(log.done, b.pkt);
  }

  /** No packet started later mends it. */
  lemma PutLong(log: Log, b: Buf, n: nat)
    requires Long(log) && b.off == 0 && n <= |b.pkt.data|
    ensures Long(Put(log, b, n))
  {
    hide Flat;
    FlatPush(log.done, b.pkt);
  }

  /** The cut packet is where its rest will be written next, unless a close threw the rest away. */
  predicate Placed(st: State) {
    var part := st.log.part;
    && (part.Some? ==>
          || st.so.dw == part
          || (st.so.high != [] && st.so.high[0] == part.value)
          || (st.so.low != [] && st.so.low[0] == part.value)
          || (st.lock.Worker? && st.lock.w < |st.ws| && st.ws[st.lock.w] == Stash(part.value.pkt, part.value.off))
          || st.log.cut || st.so.kind == Invalid)
    && (st.so.dw.Some? && st.so.dw.value.off > 0 ==> part == st.so.dw)
    && (st.so.high != [] && st.so.high[0].off > 0 ==> part == Some(st.so.high[0]))
    && (st.so.low != [] && st.so.low[0].off > 0 ==> part == Some(st.so.low[0]))
    && (forall w :: 0 <= w < |st.ws| && st.ws[w].Stash? && st.ws[w].off > 0 ==>
                      part == Some(Buf(st.ws[w].pkt, st.ws[w].off)))
  }

  predicate FrameInv(st: State) { st.log.torn || (Framed(st.log) && Placed(st)) }

  /** While a thread is about to write directly, no packet is cut, save one whose rest was freed. */
  lemma DirectAlone(st: State, w: nat)
    requires Locked(st) && Shape(st) && Placed(st) && w < |st.ws| && st.ws[w].Direct? && st.log.part.Some?
    requires 0 < st.log.part.value.off
    ensures st.log.cut
  {
    assert PcShape(st.so, st.ws[w]);
    assert !st.sv.SRaise?;
  }

  lemma FrameDirect(st: State, w: nat, n: nat)
    requires Locked(st) && Shape(st) && FrameInv(st) && w < |st.ws| && st.ws[w].Direct?
    ensures FrameInv(WorkerGo(st, w, n))
  {
    hide Flat;
    var st' := WorkerGo(st, w, n);
    var p := st.ws[w].pkt;
    if !st'.log.torn && n <= |p.data| {
      if st.log.part.Some? && n > 0 { DirectAlone(st, w); }
      PutFramed(st.log, Buf(p, 0), n);
      hide Framed;
      assert PcShape(st.so, st.ws[w]);
      assert st.lock == Worker(w);
      assert forall v :: 0 <= v < |st.ws| && v != w ==> !st.ws[v].Stash?;
      if n == 0 && st.log.part.Some? { assert st'.log.part == st.log.part; }
    }
  }

  lemma ShapeOf(st: State, w: nat)
    requires Shape(st) && w < |st.ws|
    ensures PcShape(st.so, st.ws[w])
  {
  }

  lemma FrameStash(st: State, w: nat)
    requires Locked(st) && Shape(st) && FrameInv(st) && w < |st.ws| && st.ws[w].Stash?
    ensures FrameInv(WorkerGo(st, w, 0))
  {
    hide Framed, ListShape, Shape;
    assert st.lock == Worker(w);
    ShapeOf(st, w);
  }

  /** A step that moves no bytes and no buffers. */
  predicate Still(st: State, st': State) {
    && st'.so.dw == st.so.dw && st'.so.high == st.so.high && st'.so.low == st.so.low
    && (st.so.kind == Invalid ==> st'.so.kind == Invalid)
    && st'.log == st.log.(dropped := st'.log.dropped, taken := st'.log.taken)
    && |st'.ws| == |st.ws| && (forall v :: 0 <= v < |st.ws| && (st.ws[v].Stash? || st'.ws[v].Stash?) ==> st'.ws[v] == st.ws[v])
    && (st.lock.Worker? && st.lock.w < |st.ws| && st.ws[st.lock.w].Stash? ==> st'.lock == st.lock)
  }

  lemma FrameStill(st: State, st': State)
    requires FrameInv(st) && Still(st, st')
    ensures FrameInv(st')
  {
  }

  lemma FrameGo(st: State, w: nat, n: nat)
    requires Locked(st) && Shape(st) && FrameInv(st) && w < |st.ws|
    ensures FrameInv(WorkerGo(st, w, n))
  {
    hide Shape, FrameInv, Put;
    if st.ws[w].Direct? {
      FrameDirect(st, w, n);
    } else if st.ws[w].Stash? {
      FrameStash(st, w);
    } else {
      FrameStill(st, WorkerGo(st, w, n));
    }
  }

  /** While the socket thread writes, a cut packet is at the head it writes from. */
  lemma ServerAlone(st: State)
    requires Locked(st) && Shape(st) && Placed(st) && Framed(st.log) && st.log.part.Some?
    requires (st.sv.SHigh? && st.so.high != []) || (st.sv.SLow? && st.so.low != [])
    ensures st.sv.SHigh? && st.so.high[0] == st.log.part.value
  {
  }

  lemma FrameWrite(st: State, r: Io)
    requires Locked(st) && Shape(st) && FrameInv(st) && (st.sv.SHigh? || st.sv.SLow?)
    ensures FrameInv(ServerIo(st, r))
  {
    hide Flat, PcShape, Pending, Stashed;
    if r.Wrote? && !st.log.torn {
      if st.log.part.Some? && (if st.sv.SHigh? then st.so.high else st.so.low) != [] { ServerAlone(st); }
      if st.sv.SHigh? && CanWrite(st.so.high, r.n) { PutFramed(st.log, st.so.high[0], r.n); }
      if st.sv.SLow? && CanWrite(st.so.low, r.n) { PutFramed(st.log, st.so.low[0], r.n); }
      hide Framed;
    }
  }

  lemma FrameHandle(st: State)
    requires Locked(st) && Shape(st) && FrameInv(st)
    ensures FrameInv(ServerHandle(st))
  {
    hide Flat, Written, PcShape;
  }

  lemma FrameTrySend(st: State)
    requires Locked(st) && Shape(st) && FrameInv(st)
    ensures FrameInv(ServerTrySend(st))
  {
    hide Flat, Written, PcShape;
  }

  lemma FrameClose(st: State)
    requires Locked(st) && Shape(st) && FrameInv(st)
    ensures FrameInv(ServerFree(st)) && FrameInv(ServerFinish(st))
  {
    hide Flat, Written, PcShape, Pending, Stashed;
  }

  lemma FrameIo(st: State, r: Io)
    requires Locked(st) && Shape(st) && FrameInv(st)
    ensures FrameInv(ServerIo(st, r))
  {
    hide Flat, Written, PcShape, Pending, Stashed, SendHigh, SendLow;
    if st.sv.SHigh? || st.sv.SLow? { FrameWrite(st, r); }
  }

  lemma FrameKept(st: State, a: Action)
    requires Locked(st) && Shape(st) && FrameInv(st)
    ensures FrameInv(Apply(st, a))
  {
    hide FrameInv, Shape, Locked, WorkerGo, ServerIo, ServerHandle, ServerTrySend, ServerFree, ServerFinish;
    match a
    case Go(w, n) => if w < |st.ws| { FrameGo(st, w, n); }
    case Io(r) => FrameIo(st, r);
    case Handle => FrameHandle(st);
    case TrySend => FrameTrySend(st);
    case Free => FrameClose(st);
    case Finish => FrameClose(st);
    case _ => FrameStill(st, Apply(st, a));
  }

  // ---- wb_size

  predicate Counted(st: State) {
    st.so.kind == Invalid || st.sv == SFreed || st.so.wbSize == Total(st.so.high) + Total(st.so.low)
  }

  lemma {:induction false} TotalPush(bs: seq<Buf>, b: Buf)
    ensures Total(bs + [b]) == Total(bs) + Left(b)
  {
    if bs == [] {
      assert bs + [b] == [b];
    } else {
      assert (bs + [b])[0] == bs[0] && (bs + [b])[1..] == bs[1..] + [b];
      TotalPush(bs[1..], b);
    }
  }

  lemma TotalCons(b: Buf, bs: seq<Buf>)
    ensures Total([b] + bs) == Left(b) + Total(bs)
  {
    assert ([b] + bs)[1..] == bs;
  }

  lemma TotalConsume(bs: seq<Buf>, n: nat)
    requires CanWrite(bs, n)
    ensures Total(Consume(bs, n)) == Total(bs) - n
  {
    if n != Left(bs[0]) { TotalCons(Buf(bs[0].pkt, bs[0].off + n), bs[1..]); }
  }

  lemma CountedIo(st: State, r: Io)
    requires Shape(st) && Counted(st)
    ensures Counted(ServerIo(st, r))
  {
    hide Total, Consume, PcsShape, Whole, HeadOnly, Put, Pending, Stashed;
    var so := st.so;
    if r.Wrote? && CanWrite(so.high, r.n) { TotalConsume(so.high, r.n); }
    if r.Wrote? && CanWrite(so.low, r.n) { TotalConsume(so.low, r.n); }
    if so.low != [] {
      TotalCons(so.low[0], so.low[1..]);
      TotalCons(so.low[0], []);
      assert [so.low[0]] + so.low[1..] == so.low && [so.low[0]] + [] == [so.low[0]];
    }
  }

  lemma CountedKept(st: State, a: Action)
    requires Shape(st) && Counted(st)
    ensures Counted(Apply(st, a))
  {
    hide Total, Shape, Put, Pending, Stashed, ServerIo;
    var so := st.so;
    match a
    case Io(r) => CountedIo(st, r);
    case Handle =>
      if st.pipe != [] && st.pipe[0].Send? {
        TotalPush(so.high, Buf(st.pipe[0].pkt, 0));
        TotalPush(so.low, Buf(st.pipe[0].pkt, 0));
      }
    case TrySend => if so.dw.Some? { TotalCons(so.dw.value, so.high); }
    case _ =>
  }

  // ---- sending

  function Payload(r: Req): seq<Packet> { if r.Send? then [r.pkt] else [] }

  function Sent(pipe: seq<Req>): seq<Packet> {
    if pipe == [] then [] else Payload(pipe[0]) + Sent(pipe[1..])
  }

  function Pushing(ws: seq<Pc>): nat {
    if ws == [] then 0 else (if ws[0].Push? then 1 else 0) + Pushing(ws[1..])
  }

  lemma {:induction false} PushingSet(ws: seq<Pc>, w: nat, pc: Pc)
    requires w < |ws|
    ensures Pushing(ws[w := pc]) == Pushing(ws) - (if ws[w].Push? then 1 else 0) + (if pc.Push? then 1 else 0)
  {
    if w > 0 {
      assert ws[w := pc][1..] == ws[1..][w - 1 := pc];
      PushingSet(ws[1..], w - 1, pc);
    } else {
      assert ws[0 := pc][1..] == ws[1..];
    }
  }

  lemma {:induction false} SentPush(pipe: seq<Req>, r: Req)
    ensures Sent(pipe + [r]) == Sent(pipe) + Payload(r)
  {
    hide Payload;
    if pipe == [] {
      assert pipe + [r] == [r] && Sent([r]) == Payload(r) + Sent([]);
    } else {
      assert (pipe + [r])[1..] == pipe[1..] + [r];
      SentPush(pipe[1..], r);
      assert Sent(pipe + [r]) == Payload(pipe[0]) + (Sent(pipe[1..]) + Payload(r));
    }
  }

  /** Packets announced but not yet taken off the pipe. 'W' requests only make `sending` larger. */
  predicate Announced(st: State) {
    st.sending >= |Sent(st.pipe)| + Pushing(st.ws) + (if st.sv == SDec then 1 else 0)
  }

  lemma AnnouncedKept(st: State, a: Action)
    requires Announced(st)
    ensures Announced(Apply(st, a))
  {
    hide Put, Pending, Stashed, Total, Sent, Pushing, SendHigh, SendLow;
    match a
    case Begin(w, low, data) =>
      var st' := Apply(st, a);
      if st' != st { PushingSet(st.ws, w, st'.ws[w]); }
    case Go(w, n) =>
      if w < |st.ws| {
        var st' := Apply(st, a);
        PushingSet(st.ws, w, st'.ws[w]);
        assert st'.ws == st.ws[w := st'.ws[w]];
        SentPush(st.pipe, Trigger);
        if st.ws[w].Push? { SentPush(st.pipe, Send(st.ws[w].pkt)); }
      }
    case Handle =>
      if st.pipe != [] { SentHead(st.pipe); }
    case Io(r) => ServerKeepsCount(st, r);
    case _ =>
  }

  lemma SentHead(pipe: seq<Req>)
    requires pipe != []
    ensures Sent(pipe) == Payload(pipe[0]) + Sent(pipe[1..])
  {
  }

  lemma ServerKeepsCount(st: State, r: Io)
    ensures ServerIo(st, r).sending == st.sending && ServerIo(st, r).pipe == st.pipe && ServerIo(st, r).ws == st.ws
    ensures ServerIo(st, r).next == st.next
    ensures ServerIo(st, r).sv == SDec <==> st.sv == SDec
  {
  }
}
