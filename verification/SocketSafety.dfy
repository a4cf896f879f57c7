/**
 * What holds in every state that worker threads and the socket thread can reach together.
 */
module SocketSafety {
  import opened Words
  import opened SocketSend
  import opened SocketProof
  import opened SocketFrame
  import opened SocketOrder

  /** A packet is torn only after a close has freed the rest of a packet that was cut. */
  predicate CutFirst(st: State) {
    && (st.log.torn ==> st.log.cut)
    && (st.log.cut && !st.log.torn ==> st.log.part.Some?)
  }

  ghost predicate Inv(st: State) {
    && Locked(st) && Shape(st) && FrameInv(st) && CutFirst(st) && Counted(st) && Announced(st)
    && AllKnow(st) && InOrder(st) && Accounted(st) && TornLong(st)
  }

  predicate TornLong(st: State) { st.log.torn ==> Long(st.log) }

  lemma InitialInv(st: State)
    requires Initial(st)
    ensures Inv(st)
  {
    NonePushing(st.ws);
    InitialRow(st);
    hide Line, Sent, Pushing, Flat, Total, Packets, After;
    assert Clear([], 0);
    assert forall w :: 0 <= w < |st.ws| ==> PcShape(st.so, st.ws[w]) && Knows(st.so, Sent(st.pipe), st.ws[w], w);
    NothingYet();
  }

  lemma NothingYet()
    ensures Flat([]) == [] && Total([]) == 0
  {
  }

  lemma InitialRow(st: State)
    requires Initial(st)
    ensures Line(st) == [] && Sent(st.pipe) == []
  {
  }

  lemma {:induction false} NonePushing(ws: seq<Pc>)
    requires forall w :: 0 <= w < |ws| ==> ws[w] == Idle
    ensures Pushing(ws) == 0
  {
    if ws != [] { NonePushing(ws[1..]); }
  }

  lemma CutFirstIo(st: State, r: Io)
    requires Shape(st) && FrameInv(st) && CutFirst(st)
    ensures CutFirst(ServerIo(st, r))
  {
    hide PcsShape, Flat, Written, Pending, Stashed;
  }

  lemma CutFirstKept(st: State, a: Action)
    requires Locked(st) && Shape(st) && FrameInv(st) && CutFirst(st)
    ensures CutFirst(Apply(st, a))
  {
    hide PcsShape, Flat, Written, Pending, Stashed, ServerIo;
    match a
    case Io(r) => CutFirstIo(st, r);
    case _ =>
  }

  lemma TornLongKept(st: State, a: Action)
    requires Locked(st) && Shape(st) && FrameInv(st) && CutFirst(st) && TornLong(st)
    ensures TornLong(Apply(st, a))
  {
    hide Flat, Written, Pending, Stashed, PcShape, Framed, Long;
    match a
    case Go(w, n) =>
      if w < |st.ws| && st.ws[w].Direct? && n <= |st.ws[w].pkt.data| {
        var b := Buf(st.ws[w].pkt, 0);
        if st.log.torn { PutLong(st.log, b, n); } else if n > 0 && st.log.cut { PutTears(st.log, b, n); }
        LongSame(Put(st.log, b, n), Apply(st, a).log);
      } else {
        LongSame(st.log, Apply(st, a).log);
      }
    case _ => LongSame(st.log, Apply(st, a).log);
  }

  lemma LongSame(log: Log, log': Log)
    ensures log'.wire == log.wire && log'.done == log.done && log'.part == log.part ==> Long(log') == Long(log)
  {
  }

  lemma StepInv(st: State, a: Action)
    requires Inv(st)
    ensures Inv(Apply(st, a))
  {
    hide Locked, Shape, FrameInv, CutFirst, Counted, Announced, AllKnow, Accounted, TornLong, Apply;
    TornLongKept(st, a);
    LockedKept(st, a);
    ShapeKept(st, a);
    FrameKept(st, a);
    CutFirstKept(st, a);
    CountedKept(st, a);
    AnnouncedKept(st, a);
    KnowsKept(st, a);
    OrderKept(st, a);
  }

  lemma {:induction false} RunInv(st: State, actions: seq<Action>)
    requires Inv(st)
    ensures Inv(Run(st, actions))
    decreases |actions|
  {
    hide Inv, Apply;
    if actions != [] {
      StepInv(st, actions[0]);
      RunInv(Apply(st, actions[0]), actions[1..]);
    }
  }

  /** In every interleaving: the wire is whole packets and at most one part exactly when no packet was
      torn; and, torn or not, the finished packets of one sender and priority are in the order of sending. */
  lemma WireHoldsWholePackets(st0: State, actions: seq<Action>)
    requires Initial(st0)
    ensures var log := Run(st0, actions).log;
      && (Framed(log) <==> !log.torn)
      && Ordered(log.done)
      && (forall p :: p in log.done ==> p in log.taken)
  {
    InitialInv(st0);
    RunInv(st0, actions);
    var st := Run(st0, actions);
    hide Run, Locked, Shape, Counted, Announced, AllKnow, Framed, Long, InOrder, Accounted, Ordered;
    if st.log.torn { LongBreaks(st.log); }
    FinishedInOrder(st);
  }

  lemma FinishedInOrder(st: State)
    requires InOrder(st) && Accounted(st)
    ensures Ordered(st.log.done) && forall p :: p in st.log.done ==> p in st.log.taken
  {
    var d, l := st.log.done, Line(st);
    assert forall i :: 0 <= i < |d| ==> d[i] == l[i];
  }

  /** A packet is in exactly one place: on the wire or queued, in the hands of its sender, or dropped. */
  ghost predicate OnePlace(st: State) {
    && (forall p :: p in st.log.taken <==> p in Line(st) || p in st.log.dropped || InHand(st, p))
    && (forall p :: p in st.log.dropped ==> p !in Line(st) && !InHand(st, p))
    && (forall p :: p in Line(st) ==> !InHand(st, p))
    && (forall i, j :: 0 <= i < j < |Line(st)| ==> Line(st)[i] != Line(st)[j])
  }

  lemma InvOnePlace(st: State)
    requires InOrder(st) && Accounted(st)
    ensures OnePlace(st)
  {
    hide Line;
    var l := Line(st);
    forall i, j | 0 <= i < j < |l| ensures l[i] != l[j] { assert l[i] == l[j] ==> Same(l[i], l[j]); }
    forall p | p in l ensures !InHand(st, p) { var k :| 0 <= k < |l| && l[k] == p; }
  }

  lemma NothingLost(st0: State, actions: seq<Action>)
    requires Initial(st0)
    ensures OnePlace(Run(st0, actions))
  {
    hide Run, Initial, Locked, Shape, Counted, Announced, AllKnow, FrameInv, InOrder, Accounted, OnePlace;
    InitialInv(st0);
    RunInv(st0, actions);
    InvOnePlace(Run(st0, actions));
  }

  /** Once everything is quiet, each packet taken over was sent in full, once, or dropped. */
  lemma QuietMeansSent(st0: State, actions: seq<Action>)
    requires Initial(st0)
    requires var st := Run(st0, actions);
      && (forall w :: 0 <= w < |st.ws| ==> st.ws[w] == Idle)
      && st.pipe == [] && st.so.high == [] && st.so.low == [] && st.so.dw.None?
    ensures var log := Run(st0, actions).log;
      && log.taken == SetOf(log.done) + log.dropped
      && SetOf(log.done) !! log.dropped
  {
    NothingLost(st0, actions);
    var st := Run(st0, actions);
    hide Run;
    assert Line(st) == st.log.done;
  }

  /** Packets are dropped only by a close, or when the socket does not accept data. */
  lemma DropsOnlyWhenClosed(st: State, a: Action)
    requires Inv(st) && st.so.kind == Connected && !st.so.closing && !st.sv.SFreed? && !a.Free?
    ensures Apply(st, a).log.dropped == st.log.dropped
  {
    hide Inv, Flat, Written;
  }

  /** The low list is served only when nothing of high priority waits. */
  lemma HighFirst(st0: State, actions: seq<Action>, r: Io)
    requires Initial(st0)
    ensures var st := Run(st0, actions); var st' := ServerIo(st, r);
      st'.log.wire != st.log.wire && st'.so.low != st.so.low ==> st.so.high == [] && st'.so.high == []
  {
    hide Run, Initial, Locked, PcsShape, Counted, Announced, AllKnow, FrameInv, InOrder, Accounted;
    InitialInv(st0);
    RunInv(st0, actions);
    var st := Run(st0, actions);
    assert ListShape(st.so, st.sv);
    hide ListShape, Inv, Shape, HeadOnly, Whole;
    OneList(st, r);
  }

  lemma OneList(st: State, r: Io)
    requires st.sv.SLow? ==> st.so.high == []
    ensures var st' := ServerIo(st, r);
      st'.log.wire != st.log.wire && st'.so.low != st.so.low ==> st.so.high == [] && st'.so.high == []
  {
    hide Pending, Stashed;
  }

  /** Packets of low priority are left to the socket thread: a worker never writes one. */
  predicate LeavesLow(pc: Pc) {
    (pc.Entry? || pc.Check? || pc.TryLock? || pc.Direct? || pc.Stash? || pc.UnlockQueue?) ==> !pc.pkt.low
  }

  /** The counter in the low half of `sending` does not overflow, and workers leave it room. */
  predicate Reserved(st: State) { st.sending <= 0xffff && forall w :: 0 <= w < |st.ws| ==> LeavesLow(st.ws[w]) }

  lemma ReservedGo(st: State, w: nat, n: nat)
    requires Reserved(st) && w < |st.ws|
    ensures Reserved(WorkerGo(st, w, n))
  {
    hide Put;
  }

  lemma ReservedStep(st: State, a: Action)
    requires Reserved(st)
    ensures Reserved(Apply(st, a))
  {
    hide WorkerGo, Pending, Stashed, Put;
    if a.Go? && a.w < |st.ws| { ReservedGo(st, a.w, a.n); }
    if !a.Go? && !a.Begin? { ServerKeeps(st, a); }
  }

  lemma {:induction false} ReservedRun(st: State, actions: seq<Action>)
    requires Reserved(st)
    ensures Reserved(Run(st, actions))
    decreases |actions|
  {
    hide Apply, Reserved;
    if actions != [] {
      ReservedStep(st, actions[0]);
      ReservedRun(Apply(st, actions[0]), actions[1..]);
    }
  }

  /** In every interleaving the counter fits 16 bits, no packet of low priority is written directly, and a
      thread waits with a request only at the largest value of the counter. */
  lemma CounterFits(st0: State, actions: seq<Action>, w: nat, n: nat)
    requires Initial(st0)
    ensures var st := Run(st0, actions);
      && st.sending <= 0xffff
      && (w < |st.ws| && (st.ws[w].Direct? || st.ws[w].Stash?) ==> !st.ws[w].pkt.low)
      && (w < |st.ws| && (st.ws[w].Inc? || st.ws[w].IncTrigger?) ==>
            (WorkerGo(st, w, n) == st <==> st.sending == 0xffff))
  {
    ReservedRun(st0, actions);
  }

  /** The assertions of the socket thread: `dec_sending_ref`, the start of `send_buffer_`,
      `raise_uncomplete`, and both queues empty before the event is turned off. */
  predicate Asserted(st: State) {
    && (st.sv == SDec ==> st.sending > 0)
    && (st.sv != SRaise && st.so.low != [] ==> st.so.low[0].off == 0)
    && (st.sv == SRaise ==> st.so.high == [])
    && (st.sv == SEmpty ==> st.so.high == [] && st.so.low == [] && st.so.wbSize == 0)
  }

  lemma InvAsserted(st: State)
    requires Shape(st) && Counted(st) && Announced(st)
    ensures Asserted(st)
  {
    hide PcsShape;
  }

  lemma AssertionsHold(st0: State, actions: seq<Action>)
    requires Initial(st0)
    ensures Asserted(Run(st0, actions))
  {
    hide Run, Initial, Locked, Shape, Counted, Announced, AllKnow, FrameInv, InOrder, Accounted, Asserted;
    InitialInv(st0);
    RunInv(st0, actions);
    InvAsserted(Run(st0, actions));
  }

  /** A direct write keeps the framing exactly when no close has freed the rest of a cut packet. */
  lemma DirectWriteTears(st: State, w: nat, n: nat)
    requires Inv(st) && !st.log.torn && w < |st.ws| && st.ws[w].Direct? && 0 < n <= |st.ws[w].pkt.data|
    ensures Framed(WorkerGo(st, w, n).log) <==> !st.log.cut
  {
    hide Flat, Written, AllKnow, Accounted, InOrder, Counted, Announced;
    var b := Buf(st.ws[w].pkt, 0);
    if st.log.cut {
      PutTears(st.log, b, n);
      LongBreaks(Put(st.log, b, n));
    } else {
      if st.log.part.Some? { DirectAlone(st, w); }
      PutFramed(st.log, b, n);
    }
  }

  /** The step frees the lists while the first packet is partly sent. */
  predicate FreesCut(st: State, a: Action) {
    a.Free? && st.sv == SIdle && st.so.kind != Invalid && st.so.high != [] && st.so.high[0].off > 0
  }

  /** The step is a direct write of at least one byte. */
  predicate WritesDirect(st: State, a: Action) {
    a.Go? && a.w < |st.ws| && st.ws[a.w].Direct? && 0 < a.n <= |st.ws[a.w].pkt.data|
  }

  predicate FreesCutPacket(st: State, actions: seq<Action>)
    decreases |actions|
  {
    actions != [] && (FreesCut(st, actions[0]) || FreesCutPacket(Apply(st, actions[0]), actions[1..]))
  }

  /** Does the run write directly after it has freed a cut packet? `cut` says that it already has. */
  predicate Tears(st: State, actions: seq<Action>, cut: bool)
    decreases |actions|
  {
    actions != [] && (
      || (cut && WritesDirect(st, actions[0]))
      || Tears(Apply(st, actions[0]), actions[1..], cut || FreesCut(st, actions[0])))
  }

  lemma CutOnlyByFree(st: State, a: Action)
    ensures Apply(st, a).log.cut <==> st.log.cut || FreesCut(st, a)
  {
    hide Pending, Stashed;
  }

  lemma TornOnlyByWrite(st: State, a: Action)
    ensures Apply(st, a).log.torn <==> st.log.torn || (st.log.cut && WritesDirect(st, a))
  {
    hide Pending, Stashed;
  }

  lemma {:induction false} TornIffTears(st: State, actions: seq<Action>)
    ensures Run(st, actions).log.torn <==> st.log.torn || Tears(st, actions, st.log.cut)
    decreases |actions|
  {
    hide Apply, WritesDirect, FreesCut;
    if actions != [] {
      CutOnlyByFree(st, actions[0]);
      TornOnlyByWrite(st, actions[0]);
      TornIffTears(Apply(st, actions[0]), actions[1..]);
    }
  }

  /** A run breaks the framing exactly when it frees a packet that is partly sent and then writes
      directly at least one byte. */
  lemma WholeUnlessTears(st0: State, actions: seq<Action>)
    requires Initial(st0)
    ensures Framed(Run(st0, actions).log) <==> !Tears(st0, actions, false)
  {
    hide Run, Framed, Tears;
    WireHoldsWholePackets(st0, actions);
    TornIffTears(st0, actions);
  }

  lemma {:induction false} NoTearWithoutFree(st: State, actions: seq<Action>)
    requires Tears(st, actions, false)
    ensures FreesCutPacket(st, actions)
    decreases |actions|
  {
    hide Apply, WritesDirect, FreesCut;
    if !FreesCut(st, actions[0]) { NoTearWithoutFree(Apply(st, actions[0]), actions[1..]); }
  }

  /** So it never breaks in a run that closes no socket in the middle of a packet. */
  lemma WholeWithoutMidPacketClose(st0: State, actions: seq<Action>)
    requires Initial(st0) && !FreesCutPacket(st0, actions)
    ensures Framed(Run(st0, actions).log)
  {
    hide Run, Framed, Tears, FreesCutPacket;
    WholeUnlessTears(st0, actions);
    if Tears(st0, actions, false) { NoTearWithoutFree(st0, actions); }
  }

  // ---- the exception: a close in the middle of a packet

  const Cut := Packet(0, 0, true, [1, 2])
  const Torn := Packet(1, 0, false, [3])

  function Fresh(): State {
    State(Sock(Connected, false, [], [], None, 0), 0, Owner.Free, [], [Idle, Idle], [0, 0], SIdle,
      Log([], [], None, {}, {}, false, false))
  }

  ghost predicate Reaches(st: State, st': State) { exists actions :: Run(st, actions) == st' }

  lemma {:induction false} RunSnoc(st: State, actions: seq<Action>, a: Action)
    ensures Run(st, actions + [a]) == Apply(Run(st, actions), a)
    decreases |actions|
  {
    hide Apply;
    if actions == [] {
      assert [a][1..] == [] && actions + [a] == [a];
      assert Run(st, [a]) == Run(Apply(st, a), []);
    } else {
      assert (actions + [a])[0] == actions[0] && (actions + [a])[1..] == actions[1..] + [a];
      RunSnoc(Apply(st, actions[0]), actions[1..], a);
    }
  }

  lemma OneMore(st: State, st': State, a: Action)
    requires Reaches(st, st')
    ensures Reaches(st, Apply(st', a))
  {
    var actions :| Run(st, actions) == st';
    RunSnoc(st, actions, a);
  }

  /** Thread 1 between its steps, after the lists were freed. */
  function Racing(pc: Pc, lock: Owner): State {
    State(Sock(Connected, false, [], [], None, 1), 0, lock, [], [Idle, pc], [1, 1], SFreed,
      Log([1], [], Some(Buf(Cut, 1)), {Cut}, {Cut, Torn}, true, false))
  }

  /** Thread 0 and the socket thread with the first packet. */
  function Early(high: seq<Buf>, n: nat, pipe: seq<Req>, pc: Pc, lock: Owner, sv: ServerPc, log: Log): State {
    State(Sock(Connected, false, high, [], None, |high| * 2 - |log.wire|), n, lock, pipe, [pc, Idle], [1, 0], sv, log)
  }

  const Taken := Log([], [], None, {}, {Cut}, false, false)
  const Half1 := Log([1], [], Some(Buf(Cut, 1)), {}, {Cut}, false, false)

  lemma CutQueued()
    ensures Apply(Fresh(), Begin(0, true, [1, 2])) == Early([], 0, [], Inc(Cut), Owner.Free, SIdle, Taken)
    ensures Apply(Early([], 0, [], Inc(Cut), Owner.Free, SIdle, Taken), Go(0, 0))
         == Early([], 1, [], Push(Cut), Owner.Free, SIdle, Taken)
    ensures Apply(Early([], 1, [], Push(Cut), Owner.Free, SIdle, Taken), Go(0, 0))
         == Early([], 1, [Send(Cut)], Idle, Owner.Free, SIdle, Taken)
  {
    hide ServerHandle, ServerIo, ServerTrySend, ServerFree;
  }

  lemma CutListed()
    ensures Apply(Early([], 1, [Send(Cut)], Idle, Owner.Free, SIdle, Taken), Handle)
         == Early([Buf(Cut, 0)], 1, [], Idle, Owner.Free, SDec, Taken)
    ensures Apply(Early([Buf(Cut, 0)], 1, [], Idle, Owner.Free, SDec, Taken), Dec)
         == Early([Buf(Cut, 0)], 0, [], Idle, Owner.Free, SIdle, Taken)
    ensures Apply(Early([Buf(Cut, 0)], 0, [], Idle, Owner.Free, SIdle, Taken), TrySend)
         == Early([Buf(Cut, 0)], 0, [], Idle, Server, SHigh, Taken)
  {
    hide WorkerGo, WorkerBegin, ServerIo, ServerFree;
  }

  lemma CutWritten()
    ensures Apply(Early([Buf(Cut, 0)], 0, [], Idle, Server, SHigh, Taken), Io(Wrote(1)))
         == Early([Buf(Cut, 1)], 0, [], Idle, Server, SUnlock, Half1)
    ensures Apply(Early([Buf(Cut, 1)], 0, [], Idle, Server, SUnlock, Half1), Io(Again))
         == Early([Buf(Cut, 1)], 0, [], Idle, Owner.Free, SIdle, Half1)
  {
    hide WorkerGo, WorkerBegin, ServerHandle, ServerTrySend, ServerFree;
    var s := Early([Buf(Cut, 0)], 0, [], Idle, Server, SHigh, Taken);
    assert Left(s.so.high[0]) == 2 && CanWrite(s.so.high, 1);
    assert Consume(s.so.high, 1) == [Buf(Cut, 1)];
    assert Put(Taken, Buf(Cut, 0), 1) == Half1;
  }

  lemma CutFreed()
    ensures Apply(Apply(Early([Buf(Cut, 1)], 0, [], Idle, Owner.Free, SIdle, Half1), Begin(1, false, [3])), Action.Free)
         == Racing(Entry(Torn), Owner.Free)
  {
    hide WorkerGo, ServerHandle, ServerTrySend, ServerIo;
    var s := Early([Buf(Cut, 1)], 0, [], Idle, Owner.Free, SIdle, Half1);
    assert Packets(s.so.high) == [Cut] && Packets(s.so.low) == [];
    assert Pending(s.so) == {Cut};
  }

  lemma FirstCut()
    ensures Reaches(Fresh(), Racing(Entry(Torn), Owner.Free))
  {
    hide Apply, Early, Racing;
    var s0 := Fresh();
    assert Run(s0, []) == s0;
    CutQueued();
    CutListed();
    CutWritten();
    CutFreed();
    hide Run;
    OneMore(s0, s0, Begin(0, true, [1, 2]));
    OneMore(s0, Early([], 0, [], Inc(Cut), Owner.Free, SIdle, Taken), Go(0, 0));
    OneMore(s0, Early([], 1, [], Push(Cut), Owner.Free, SIdle, Taken), Go(0, 0));
    OneMore(s0, Early([], 1, [Send(Cut)], Idle, Owner.Free, SIdle, Taken), Handle);
    OneMore(s0, Early([Buf(Cut, 0)], 1, [], Idle, Owner.Free, SDec, Taken), Dec);
    OneMore(s0, Early([Buf(Cut, 0)], 0, [], Idle, Owner.Free, SIdle, Taken), TrySend);
    OneMore(s0, Early([Buf(Cut, 0)], 0, [], Idle, Server, SHigh, Taken), Io(Wrote(1)));
    OneMore(s0, Early([Buf(Cut, 1)], 0, [], Idle, Server, SUnlock, Half1), Io(Again));
    var s := Early([Buf(Cut, 1)], 0, [], Idle, Owner.Free, SIdle, Half1);
    OneMore(s0, s, Begin(1, false, [3]));
    OneMore(s0, Apply(s, Begin(1, false, [3])), Action.Free);
  }

  /** One of the reads of `can_direct_write`, in the window between freeing the lists and locking. */
  lemma ReadsPass(second: bool, lock: Owner)
    requires Reaches(Fresh(), Racing(Check(Torn, second, High), lock))
    ensures Reaches(Fresh(), Racing(if second then Direct(Torn) else TryLock(Torn), lock))
  {
    hide Run;
    var s0 := Fresh();
    var c := stage => Racing(Check(Torn, second, stage), lock);
    OneMore(s0, c(High), Go(1, 0));
    OneMore(s0, c(Low), Go(1, 0));
    OneMore(s0, c(Dw), Go(1, 0));
    OneMore(s0, c(Sending), Go(1, 0));
    OneMore(s0, c(Type(false)), Go(1, 0));
    assert Apply(c(High), Go(1, 0)) == c(Low);
    assert Apply(c(Low), Go(1, 0)) == c(Dw);
    assert Apply(c(Dw), Go(1, 0)) == c(Sending);
    assert Apply(c(Sending), Go(1, 0)) == c(Type(false));
  }

  lemma {:induction false} FlatFirst(ps: seq<Packet>)
    requires ps != []
    ensures Flat(ps) == ps[0].data + Flat(ps[1..])
  {
    if |ps| > 1 {
      FlatFirst(ps[..|ps| - 1]);
      assert ps[..|ps| - 1][1..] == ps[1..][..|ps| - 2];
    }
  }

  /** The exception is real: a shutdown in the middle of a packet lets another thread write behind the
      first half, and the bytes on the wire are then no row of packets with a part of one at the end. */
  lemma ShutdownTears()
    ensures exists actions ::
      var log := Run(Fresh(), actions).log;
      && log.torn && log.wire == [1, 3] && log.taken == {Cut, Torn}
      && forall ps: seq<Packet>, part: Option<Buf> ::
           (forall p :: p in ps ==> p in log.taken) && (part.Some? ==> part.value.pkt in log.taken) ==>
           log.wire != Flat(ps) + Written(part)
  {
    hide Run;
    var s0 := Fresh();
    FirstCut();
    OneMore(s0, Racing(Entry(Torn), Owner.Free), Go(1, 0));
    assert Apply(Racing(Entry(Torn), Owner.Free), Go(1, 0)) == Racing(Check(Torn, false, High), Owner.Free);
    ReadsPass(false, Owner.Free);
    OneMore(s0, Racing(TryLock(Torn), Owner.Free), Go(1, 0));
    assert Apply(Racing(TryLock(Torn), Owner.Free), Go(1, 0)) == Racing(Check(Torn, true, High), Worker(1));
    ReadsPass(true, Worker(1));
    var s := Racing(Direct(Torn), Worker(1));
    OneMore(s0, s, Go(1, 1));
    var log := Apply(s, Go(1, 1)).log;
    var actions :| Run(s0, actions) == Apply(s, Go(1, 1));
    forall ps: seq<Packet>, part: Option<Buf> |
      (forall p :: p in ps ==> p in log.taken) && (part.Some? ==> part.value.pkt in log.taken)
      ensures log.wire != Flat(ps) + Written(part)
    {
      NoRow(ps, part);
    }
  }

  lemma NoRow(ps: seq<Packet>, part: Option<Buf>)
    requires forall p :: p in ps ==> p == Cut || p == Torn
    requires part.Some? ==> part.value.pkt == Cut || part.value.pkt == Torn
    ensures Flat(ps) + Written(part) != [1, 3]
  {
    hide Flat;
    if ps == [] {
      NothingYet();
      assert [] + Written(part) == Written(part);
      NoPart(part);
    } else {
      FlatFirst(ps);
      assert ps[0] in ps;
      FirstBytes(ps[0].data, Flat(ps[1..]), Written(part));
    }
  }

  lemma NoPart(part: Option<Buf>)
    requires part.Some? ==> part.value.pkt == Cut || part.value.pkt == Torn
    ensures Written(part) != [1, 3]
  {
    if |Written(part)| == 2 { assert Written(part)[1] == part.value.pkt.data[1]; }
  }

  lemma FirstBytes(a: seq<byte>, b: seq<byte>, c: seq<byte>)
    requires a == [1, 2] || a == [3]
    ensures (a + b) + c != [1, 3]
  {
    var r := (a + b) + c;
    assert r[0] == a[0];
    if a == [1, 2] { assert r[1] == 2; }
  }
}
