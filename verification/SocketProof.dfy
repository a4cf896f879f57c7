/**
 * What every step of every thread keeps on a socket: whose turn it is to write, which packet is cut,
 * the order of packets, and where each packet is.
 */
module SocketProof {
  import opened Words
  import opened SocketSend

  // ---- who holds the lock

  predicate Holds(pc: Pc) {
    (pc.Check? && pc.second) || pc.Direct? || pc.Stash? || pc.UnlockDone? || pc.UnlockTrigger? || pc.UnlockQueue?
  }

  predicate Sends(sv: ServerPc) { sv.SHigh? || sv.SLow? || sv.SRaise? || sv.SEmpty? || sv.SUnlock? }

  predicate Locked(st: State) {
    && |st.ws| == |st.next|
    && (Sends(st.sv) <==> st.lock == Server)
    && (st.lock.Worker? ==> st.lock.w < |st.ws|)
    && (forall w :: 0 <= w < |st.ws| ==> (Holds(st.ws[w]) <==> st.lock == Worker(w)))
  }

  lemma LockedGo(st: State, w: nat, n: nat)
    requires Locked(st) && w < |st.ws|
    ensures Locked(WorkerGo(st, w, n))
  {
    var st' := WorkerGo(st, w, n);
    assert |st'.ws| == |st.ws|;
    assert forall v :: 0 <= v < |st.ws| && v != w ==> st'.ws[v] == st.ws[v];
  }

  lemma LockedIo(st: State, r: Io)
    requires Locked(st)
    ensures Locked(ServerIo(st, r))
  {
    assert ServerIo(st, r).ws == st.ws && ServerIo(st, r).next == st.next;
  }

  lemma LockedKept(st: State, a: Action)
    requires Locked(st)
    ensures Locked(Apply(st, a))
  {
    hide WorkerGo, ServerIo, Put;
    match a
    case Go(w, n) => if w < |st.ws| { LockedGo(st, w, n); }
    case Io(r) => LockedIo(st, r);
    case _ =>
  }

  // ---- the shape of the lists

  predicate Whole(bs: seq<Buf>) { forall i :: 0 <= i < |bs| ==> bs[i].off == 0 }

  predicate HeadOnly(bs: seq<Buf>) {
    && (bs != [] && bs[0].off > 0 ==> bs[0].off < |bs[0].pkt.data|)
    && (forall i :: 0 < i < |bs| ==> bs[i].off == 0)
  }

  /** The second check has seen the high list empty. */
  predicate SawHigh(pc: Pc) {
    (pc.Check? && pc.second && (pc.stage.Low? || pc.stage.Dw? || pc.stage.Sending? || pc.stage == Type(false))) || pc.Direct? || pc.Stash?
  }

  predicate SawLow(pc: Pc) {
    (pc.Check? && pc.second && (pc.stage.Dw? || pc.stage.Sending? || pc.stage == Type(false))) || pc.Direct? || pc.Stash?
  }

  predicate SawDw(pc: Pc) {
    (pc.Check? && pc.second && (pc.stage.Sending? || pc.stage == Type(false))) || pc.Direct? || pc.Stash?
  }

  predicate PcShape(so: Sock, pc: Pc) {
    && (SawHigh(pc) ==> Whole(so.high))
    && (SawDw(pc) ==> so.dw.None?)
    && ((pc.Direct? || pc.Stash?) ==> so.kind != Invalid && so.kind != PAccept)
    && (pc.Check? && pc.stage == Type(true) ==> so.kind == HalfWrite || so.kind == Invalid)
    && (pc.Stash? && pc.off > 0 ==> pc.off < |pc.pkt.data|)
    && ((pc.Entry? || pc.Check? || pc.TryLock? || pc.Direct? || pc.Stash?) ==> !pc.pkt.low)
  }

  predicate PcsShape(st: State) {
    forall w :: 0 <= w < |st.ws| ==> PcShape(st.so, st.ws[w])
  }

  /** Only a list head can be cut; the low list has no cut head outside `send_buffer_`. */
  predicate ListShape(so: Sock, sv: ServerPc) {
    && HeadOnly(so.high) && HeadOnly(so.low)
    && (!sv.SRaise? ==> Whole(so.low))
    && (sv.SLow? || sv.SRaise? || sv.SEmpty? || sv.SFreed? ==> so.high == [])
    && (sv.SEmpty? || sv.SFreed? ==> so.low == [])
    && (sv.SHigh? || sv.SLow? || sv.SRaise? || sv.SEmpty? ==> so.kind != Invalid)
    && (so.kind == Invalid ==> so.high == [] && so.low == [] && so.dw.None?)
    && (forall i :: 0 <= i < |so.low| ==> so.low[i].pkt.low)
    && (so.dw.Some? ==>
          && Whole(so.high) && !Sends(sv)
          && (so.dw.value.off > 0 ==> so.dw.value.off < |so.dw.value.pkt.data|))
  }

  predicate Shape(st: State) {
    && ListShape(st.so, st.sv) && PcsShape(st)
    && (st.log.cut ==> st.sv == SFreed || st.so.kind == Invalid)
  }

  lemma ListsGo(st: State, w: nat, n: nat)
    requires Locked(st) && Shape(st) && w < |st.ws|
    ensures ListShape(WorkerGo(st, w, n).so, WorkerGo(st, w, n).sv)
  {
    hide Put, After, Test, Whole, HeadOnly;
    assert PcShape(st.so, st.ws[w]);
  }

  lemma PcShapeCheck(so: Sock, sending: nat, pc: Pc)
    requires PcShape(so, pc) && pc.Check?
    ensures PcShape(so, After(pc, Test(so, sending, pc.stage)))
  {
  }

  lemma ShapeGone(st: State, w: nat, n: nat)
    requires Locked(st) && Shape(st) && w < |st.ws|
    requires st.ws[w].Check? ==> PcShape(st.so, After(st.ws[w], Test(st.so, st.sending, st.ws[w].stage)))
    ensures PcShape(WorkerGo(st, w, n).so, WorkerGo(st, w, n).ws[w])
    ensures WorkerGo(st, w, n).log.cut == st.log.cut
  {
    hide ListShape, HeadOnly, After, Test;
    assert PcShape(st.so, st.ws[w]);
  }

  lemma ShapeGo(st: State, w: nat, n: nat)
    requires Locked(st) && Shape(st) && w < |st.ws|
    ensures Shape(WorkerGo(st, w, n))
  {
    hide ListShape, HeadOnly, After, Test, Put;
    ListsGo(st, w, n);
    var st' := WorkerGo(st, w, n);
    var pc := st.ws[w];
    assert PcShape(st.so, pc);
    if pc.Check? { PcShapeCheck(st.so, st.sending, pc); }
    ShapeGone(st, w, n);
    forall v | 0 <= v < |st'.ws| && v != w ensures PcShape(st'.so, st'.ws[v]) {
      assert PcShape(st.so, st.ws[v]);
    }
  }

  lemma ShapeBegin(st: State, w: nat, low: bool, data: seq<byte>)
    requires Shape(st)
    ensures Shape(WorkerBegin(st, w, low, data))
  {
    var st' := WorkerBegin(st, w, low, data);
    forall v | 0 <= v < |st'.ws| ensures PcShape(st'.so, st'.ws[v]) {
      assert PcShape(st.so, st.ws[v]);
    }
  }

  predicate Dead(kind: Kind) { kind == HalfWrite || kind == Invalid }

  /** A change of the socket that a thread between its two checks does not notice. */
  predicate Quiet(so: Sock, so': Sock) {
    && (Whole(so.high) ==> Whole(so'.high))
    && (so.dw.None? ==> so'.dw.None?)
    && (so.kind != Invalid && so.kind != PAccept ==> so'.kind != Invalid && so'.kind != PAccept)
  }

  lemma PcsFrame(st: State, st': State)
    requires Locked(st) && PcsShape(st) && st'.ws == st.ws
    requires st.lock.Worker? ==> Quiet(st.so, st'.so)
    requires Dead(st.so.kind) ==> Dead(st'.so.kind)
    ensures PcsShape(st')
  {
    hide Whole, HeadOnly;
    forall v | 0 <= v < |st'.ws| ensures PcShape(st'.so, st'.ws[v]) {
      assert PcShape(st.so, st.ws[v]);
    }
  }

  lemma ShapeWrite(st: State, r: Io)
    requires Locked(st) && Shape(st) && (st.sv.SHigh? || st.sv.SLow?)
    ensures Shape(ServerIo(st, r))
  {
    hide PcShape, Pending, Stashed;
    var st' := ServerIo(st, r);
    assert ListShape(st'.so, st'.sv);
    PcsFrame(st, st');
  }

  lemma ShapeIo(st: State, r: Io)
    requires Locked(st) && Shape(st)
    ensures Shape(ServerIo(st, r))
  {
    hide PcShape, Put, Pending, Stashed, SendHigh, SendLow;
    if st.sv.SHigh? || st.sv.SLow? {
      ShapeWrite(st, r);
    } else {
      var st' := ServerIo(st, r);
      assert ListShape(st'.so, st'.sv);
      PcsFrame(st, st');
    }
  }

  lemma ShapeHandle(st: State)
    requires Locked(st) && Shape(st)
    ensures Shape(ServerHandle(st))
  {
    hide PcShape, Whole, HeadOnly;
    if st.pipe != [] && st.pipe[0].Send? {
      var p := st.pipe[0].pkt;
      OneMoreBuf(st.so.high, p);
      OneMoreBuf(st.so.low, p);
    }
    PcsFrame(st, ServerHandle(st));
  }

  lemma OneMoreBuf(bs: seq<Buf>, p: Packet)
    ensures (Whole(bs) ==> Whole(bs + [Buf(p, 0)])) && (HeadOnly(bs) ==> HeadOnly(bs + [Buf(p, 0)]))
  {
  }

  lemma ShapeTrySend(st: State)
    requires Locked(st) && Shape(st)
    ensures Shape(ServerTrySend(st)) && Shape(ServerDec(st))
  {
    hide PcShape;
    PcsFrame(st, ServerTrySend(st));
    PcsFrame(st, ServerDec(st));
  }

  lemma ShapeClose(st: State, closing: bool)
    requires Locked(st) && Shape(st)
    ensures Shape(ServerFree(st)) && Shape(ServerFinish(st)) && Shape(ServerShut(st, closing)) && Shape(ServerOpen(st))
  {
    hide PcShape, Put, Pending, Stashed;
    var a, b, c, d := ServerFree(st), ServerFinish(st), ServerShut(st, closing), ServerOpen(st);
    PcsFrame(st, a);
    PcsFrame(st, b);
    PcsFrame(st, c);
    PcsFrame(st, d);
  }

  lemma ShapeKept(st: State, a: Action)
    requires Locked(st) && Shape(st)
    ensures Shape(Apply(st, a))
  {
    hide WorkerGo, WorkerBegin, ServerIo, Shape, Locked;
    match a
    case Begin(w, low, data) => ShapeBegin(st, w, low, data);
    case Go(w, n) => if w < |st.ws| { ShapeGo(st, w, n); }
    case Io(r) => ShapeIo(st, r);
    case Shut(closing) => ShapeClose(st, closing);
    case _ =>
      ShapeHandle(st);
      ShapeTrySend(st);
      ShapeClose(st, false);
  }
}
