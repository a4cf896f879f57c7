/**
 * The handlers of the socket thread for one TCP socket, in the order of their statements. Each of
 * them is tied, by the ghost field `run`, to steps of the machine of `SocketSend`, so that what is
 * proved for all interleavings justifies the assertions here. What other threads do while a handler
 * waits for the lock, and what the kernel answers, are parameters.
 */
module SocketThread {
  import opened Words
  import opened SocketSend
  import opened SocketProof
  import opened SocketFrame
  import opened SocketOrder
  import opened SocketSafety

  /** Messages for the service that owns the socket; `Ignored` stands for the result -1 or SOCKET_RST. */
  datatype Event = Ignored | Opened | Data | Closed | Failed

  predicate OnlyWorkers(actions: seq<Action>) {
    forall i :: 0 <= i < |actions| ==> actions[i].Begin? || actions[i].Go?
  }

  /** At most one SOCKET_CLOSE, and no SOCKET_DATA after it. */
  predicate ClosedOnce(raised: seq<Event>) {
    forall i, j :: 0 <= i < j < |raised| && raised[i] == Closed ==> raised[j] != Closed && raised[j] != Data
  }

  lemma ClosedOncePush(raised: seq<Event>, e: Event)
    requires ClosedOnce(raised) && (e == Closed || e == Data ==> Closed !in raised)
    ensures ClosedOnce(raised + [e])
  {
  }

  /** Results of `send_list` and `close_write`: -1, SOCKET_RST and SOCKET_ERR. */
  datatype Ret = Blocked | Rst | Err

  lemma RunAppend(st: State, a: seq<Action>, b: seq<Action>)
    ensures Run(st, a + b) == Run(Run(st, a), b)
    decreases |a|
  {
    hide Apply;
    if a == [] {
      assert a + b == b;
    } else {
      assert (a + b)[0] == a[0] && (a + b)[1..] == a[1..] + b;
      RunAppend(Apply(st, a[0]), a[1..], b);
    }
  }

  function Least(a: nat, b: nat): nat { if a < b then a else b }

  /** Steps of the socket thread that serve one list, for the answers `writes` of the kernel to its writes;
      after these it would block. */
  function Serve(st: State, isHigh: bool, writes: seq<Io>): State
    decreases |writes|
  {
    var list := if isHigh then st.so.high else st.so.low;
    if list == [] then st
    else if writes == [] || writes[0].Again? then ServerIo(st, Again)
    else if writes[0].Error? then ServerIo(st, Io.Error)
    else
      var n := Least(writes[0].n, Left(list[0]));
      var st' := ServerIo(st, Wrote(n));
      if n == Left(list[0]) then Serve(st', isHigh, writes[1..]) else st'
  }

  /** The four steps of `send_buffer_`. */
  function SendAll(st: State, toHigh: seq<Io>, toLow: seq<Io>): State {
    var a := Serve(st, true, toHigh);
    if a.sv != SHigh then a else
    var b := ServerIo(a, Again);
    var c := if b.sv == SLow then Serve(b, false, toLow) else b;
    var d := if c.sv == SLow then ServerIo(c, Again) else c;
    if d.sv == SRaise || d.sv == SEmpty then ServerIo(d, Again) else d
  }

  /** An empty list is passed without a write. */
  lemma Passed(st: State)
    ensures st.sv == SHigh && st.so.high == [] ==>
      ServerIo(st, Again) == st.(sv := if st.so.low != [] then SLow else SEmpty)
    ensures st.sv == SLow && st.so.low == [] ==> ServerIo(st, Again) == st.(sv := SEmpty)
  {
  }

  /** `force_close` from outside `send_buffer`, with the steps of others while it waits for the lock. */
  function Closing(st: State, others: seq<Action>): State { ServerFinish(Run(ServerFree(st), others)) }

  // ---- what a pending close waits for

  /** The packets of the two lists and of the rest of a direct write. */
  function Waiting(so: Sock): set<Packet> { Pending(so) + Stashed(so) }

  /** Nothing is dropped on the way to `st'`: what waited is on the wire or still waits. */
  predicate OnlySent(st: State, st': State) {
    && st'.log.dropped == st.log.dropped && SetOf(st.log.done) <= SetOf(st'.log.done)
    && Waiting(st.so) <= Waiting(st'.so) + SetOf(st'.log.done)
  }

  predicate NoError(writes: seq<Io>) { forall i :: 0 <= i < |writes| ==> !writes[i].Error? }

  /** Inside `send_buffer`; when it ends, a closing socket is invalid exactly when both lists are empty. */
  predicate Serving(st: State) {
    && st.so.dw.None?
    && (st.sv == SHigh || st.sv == SLow || st.sv == SRaise || st.sv == SEmpty || st.sv == SUnlock)
    && (st.sv != SUnlock ==> st.so.kind != Invalid)
    && (st.sv == SLow || st.sv == SRaise || st.sv == SEmpty ==> st.so.high == [])
    && (st.sv == SRaise ==> st.so.low != [])
    && (st.sv == SEmpty ==> st.so.low == [])
    && (st.sv == SUnlock && st.so.closing ==> (st.so.kind == Invalid <==> st.so.high == [] && st.so.low == []))
  }

  predicate Leads(st: State, st': State, sent: bool) {
    Serving(st') && st'.so.closing == st.so.closing && (sent ==> OnlySent(st, st'))
  }

  lemma LeadsOn(a: State, b: State, c: State, sent: bool)
    requires Leads(a, b, sent) && Leads(b, c, sent)
    ensures Leads(a, c, sent)
  {
    hide Serving, Waiting, SetOf;
  }

  lemma ServingStep(st: State, r: Io)
    requires Serving(st) && st.sv != SUnlock
    ensures Serving(ServerIo(st, r)) && ServerIo(st, r).so.closing == st.so.closing
  {
    hide Pending, Stashed, Put;
  }

  /** Without the head, or with some of it sent, a list has the same packets but for a finished one. */
  lemma ConsumePackets(bs: seq<Buf>, n: nat)
    requires bs != []
    ensures SetOf(Packets(bs)) ==
      SetOf(Packets(Consume(bs, n))) + if n == Left(bs[0]) then {bs[0].pkt} else {}
  {
    var ps, qs := Packets(bs), Packets(Consume(bs, n));
    assert ps == [bs[0].pkt] + Packets(bs[1..]);
    assert n != Left(bs[0]) ==> qs == ps;
    forall p ensures p in ps <==> p in Packets(bs[1..]) || p == bs[0].pkt {}
  }

  lemma SentStep(st: State, r: Io)
    requires Serving(st) && st.sv != SUnlock && !r.Error?
    ensures OnlySent(st, ServerIo(st, r))
  {
    hide Left;
    var so := st.so;
    if st.sv == SHigh && so.high != [] && r.Wrote? && CanWrite(so.high, r.n) { ConsumePackets(so.high, r.n); }
    if st.sv == SLow && so.low != [] && r.Wrote? && CanWrite(so.low, r.n) { ConsumePackets(so.low, r.n); }
    if st.sv == SRaise {
      assert Packets(so.low) == Packets([so.low[0]]) + Packets(so.low[1..]);
    }
  }

  lemma LeadsStep(st: State, r: Io, sent: bool)
    requires Serving(st) && st.sv != SUnlock && (sent ==> !r.Error?)
    ensures Leads(st, ServerIo(st, r), sent)
  {
    hide Serving, ServerIo, OnlySent;
    ServingStep(st, r);
    if sent { SentStep(st, r); }
  }

  lemma Stays(st: State, sent: bool)
    requires Serving(st)
    ensures Leads(st, st, sent)
  {
  }

  lemma {:induction false} ServeLeads(st: State, isHigh: bool, writes: seq<Io>)
    requires Serving(st) && st.sv == if isHigh then SHigh else SLow
    ensures Leads(st, Serve(st, isHigh, writes), NoError(writes))
    decreases |writes|
  {
    hide Serving, Leads, Left;
    var list := if isHigh then st.so.high else st.so.low;
    Stays(st, NoError(writes));
    if list != [] {
      if writes == [] || writes[0].Again? {
        LeadsStep(st, Again, NoError(writes));
      } else if writes[0].Error? {
        LeadsStep(st, Io.Error, NoError(writes));
      } else {
        var n := Least(writes[0].n, Left(list[0]));
        var st' := ServerIo(st, Wrote(n));
        LeadsStep(st, Wrote(n), NoError(writes));
        if n == Left(list[0]) {
          LeadsServing(st, st', NoError(writes));
          ServeLeads(st', isHigh, writes[1..]);
          if NoError(writes) {
            assert forall i :: 0 <= i < |writes[1..]| ==> writes[1..][i] == writes[i + 1];
            assert NoError(writes[1..]);
          }
          Weaken(st', Serve(st', isHigh, writes[1..]), NoError(writes[1..]), NoError(writes));
          LeadsOn(st, st', Serve(st', isHigh, writes[1..]), NoError(writes));
        }
      }
    }
  }

  lemma LeadsServing(st: State, st': State, sent: bool)
    requires Leads(st, st', sent)
    ensures Serving(st')
  {
  }

  lemma Weaken(st: State, st': State, sent: bool, sent': bool)
    requires Leads(st, st', sent) && (sent' ==> sent)
    ensures Leads(st, st', sent')
  {
  }

  /** An attempt to send drops nothing unless a write fails; afterwards a closing socket is invalid
      exactly when everything was sent. */
  lemma SendAllLeads(st: State, toHigh: seq<Io>, toLow: seq<Io>)
    requires Serving(st) && st.sv == SHigh
    ensures Leads(st, SendAll(st, toHigh, toLow), NoError(toHigh) && NoError(toLow))
  {
    hide Serving, Leads, Serve, ServerIo, NoError;
    var sent := NoError(toHigh) && NoError(toLow);
    var a := Serve(st, true, toHigh);
    ServeLeads(st, true, toHigh);
    Weaken(st, a, NoError(toHigh), sent);
    if a.sv == SHigh {
      LeadsServing(st, a, sent);
      var b := ServerIo(a, Again);
      LeadsStep(a, Again, sent);
      LeadsServing(a, b, sent);
      LeadsOn(st, a, b, sent);
      var c := if b.sv == SLow then Serve(b, false, toLow) else b;
      if b.sv == SLow {
        ServeLeads(b, false, toLow);
        Weaken(b, c, NoError(toLow), sent);
        LeadsOn(st, b, c, sent);
      }
      LeadsServing(st, c, sent);
      var d := if c.sv == SLow then ServerIo(c, Again) else c;
      if c.sv == SLow {
        LeadsStep(c, Again, sent);
        LeadsOn(st, c, d, sent);
      }
      LeadsServing(st, d, sent);
      if d.sv == SRaise || d.sv == SEmpty {
        LeadsStep(d, Again, sent);
        LeadsOn(st, d, ServerIo(d, Again), sent);
      }
    }
  }

  lemma DroppedGrows(st: State, a: Action)
    ensures st.log.dropped <= Apply(st, a).log.dropped
  {
    hide Pending, Stashed;
  }

  lemma {:induction false} DroppedStays(st: State, actions: seq<Action>)
    ensures st.log.dropped <= Run(st, actions).log.dropped
    decreases |actions|
  {
    hide Apply;
    if actions != [] {
      DroppedGrows(st, actions[0]);
      DroppedStays(Apply(st, actions[0]), actions[1..]);
    }
  }

  /** `force_close` gives up both lists. */
  lemma ListsDropped(st: State, others: seq<Action>)
    requires st.sv == SIdle && st.so.kind != Invalid
    ensures Pending(st.so) <= Closing(st, others).log.dropped
  {
    DroppedStays(ServerFree(st), others);
    hide Run, Pending, Stashed;
  }

  lemma QueuedInLine(st: State)
    requires OnePlace(st)
    ensures Waiting(st.so) !! st.log.dropped
    ensures st.so.high == [] && st.so.low == [] && st.so.dw.None? ==> Waiting(st.so) == {}
  {
    assert forall p :: p in Waiting(st.so) ==> p in Line(st);
  }

  class TcpSocket {
    var kind: Kind
    var closing: bool
    var high: seq<Buf>
    var low: seq<Buf>
    var dw: Option<Buf>
    var wbSize: int
    var reading: bool
    var writing: bool

    ghost var start: State
    ghost var history: seq<Action>
    ghost var run: State
    ghost var raised: seq<Event>

    function Fields(): Sock
      reads this
    {
      Sock(kind, closing, high, low, dw, wbSize)
    }

    /** The fields are those of the state that the history leads to. */
    ghost predicate Tied()
      reads this
    {
      Initial(start) && run == Run(start, history) && run.so == Fields()
    }

    ghost predicate Answered()
      reads this
    {
      && ClosedOnce(raised)
      && (Closed in raised ==> kind == HalfRead || kind == Invalid)
      && (kind == HalfRead ==> Closed in raised)
      && (closing ==> kind == HalfRead || kind == Invalid)
      && (kind == Invalid ==> Closed in raised || Failed in raised)
    }

    ghost predicate Valid()
      reads this
    {
      Tied() && run.sv == SIdle && Answered()
    }

    constructor (kind: Kind, ghost threads: nat)
      requires kind == PAccept || kind == Connecting || kind == Connected
      ensures Valid() && raised == [] && this.kind == kind
    {
      this.kind, closing, high, low, dw, wbSize := kind, false, [], [], None, 0;
      reading, writing, raised, history := false, false, [], [];
      var st := State(Sock(kind, false, [], [], None, 0), 0, Owner.Free, [], seq(threads, _ => Idle),
        seq(threads, _ => 0), SIdle, Log([], [], None, {}, {}, false, false));
      start, run := st, st;
    }

    ghost method Did(a: Action)
      requires run == Run(start, history)
      modifies `run, `history
      ensures run == Apply(old(run), a) && run == Run(start, history)
    {
      RunSnoc(start, history, a);
      history := history + [a];
      run := Apply(run, a);
    }

    lemma Known()
      requires Initial(start) && run == Run(start, history)
      ensures Inv(run)
    {
      InitialInv(start);
      RunInv(start, history);
    }

    /** `nomore_sending_data`; `sending` is what the counter reads. */
    predicate NoMore(sending: nat)
      reads this
    {
      (high == [] && low == [] && dw.None? && sending == 0) || kind == HalfWrite
    }

    /** Wait for `dw_lock`: the thread that holds it may still leave a buffer behind. */
    method Lock(ghost others: seq<Action>, left: Option<Buf>)
      requires Tied() && OnlyWorkers(others)
      requires Run(run, others).lock.Free? && Run(run, others).so == Fields().(dw := left)
      modifies `dw, `run, `history
      ensures Tied() && dw == left && run == Run(old(run), others)
    {
      dw := left;
      RunAppend(start, history, others);
      history := history + others;
      run := Run(run, others);
    }

    /** `force_close` without the lock. */
    method ForceClose(ghost others: seq<Action>, left: Option<Buf>)
      requires Tied() && run.sv == SIdle && kind != Invalid && OnlyWorkers(others)
      requires var freed := Run(ServerFree(run), others);
        freed.lock.Free? && freed.sv == SFreed && freed.so == FreeLists(Fields()).(dw := left)
      modifies `high, `low, `dw, `kind, `run, `history
      ensures Tied() && run.sv == SIdle && kind == Invalid
      ensures high == [] && low == [] && dw.None?
      ensures run == Closing(old(run), others)
    {
      hide Initial, Run, Pending, Stashed;
      high, low := [], [];
      Did(Action.Free);
      Lock(others, left);
      kind := Invalid;
      if dw.Some? { dw := None; }
      Did(Finish);
    }

    /** `force_close` inside `send_buffer`, where the lock is held already. */
    method ForceCloseLocked()
      modifies `high, `low, `dw, `kind
      ensures Fields() == CloseFd(FreeLists(old(Fields())))
    {
      high, low := [], [];
      kind := Invalid;
      if dw.Some? { dw := None; }
    }

    method CloseWrite() returns (r: Ret)
      requires Tied() && Answered()
      requires (run.sv.SHigh? && high != []) || (run.sv.SLow? && low != [])
      modifies `high, `low, `dw, `kind, `writing, `run, `history
      ensures Tied() && Answered() && run == SocketSend.CloseWrite(old(run)) && run.sv.SUnlock?
      ensures r != Blocked && run == ServerIo(old(run), Io.Error)
      ensures old(kind) == HalfRead ==> kind == Invalid
      ensures r == Err <==> kind == HalfWrite && old(kind) != HalfWrite
      ensures r == Err <==> old(kind) != HalfRead && old(kind) != HalfWrite && !old(closing)
    {
      hide Initial, Run, Pending, Stashed, Inv;
      StillOpen();
      if closing {
        ForceCloseLocked();
        r := Rst;
      } else if kind == HalfRead {
        ForceCloseLocked();
        r := Rst;
      } else if kind == HalfWrite {
        r := Rst;
      } else {
        kind, writing := HalfWrite, false;
        r := Err;
      }
      Did(Io(Io.Error));
    }

    lemma StillOpen()
      requires Tied() && ((run.sv.SHigh? && high != []) || (run.sv.SLow? && low != []))
      ensures kind != Invalid
      ensures if run.sv.SHigh? then high[0].off <= |high[0].pkt.data| else low[0].off <= |low[0].pkt.data|
    {
      hide Run, Initial, Locked, FrameInv, CutFirst, Counted, Announced, AllKnow, InOrder, Accounted;
      Known();
    }

    function List(isHigh: bool): seq<Buf>
      reads this
    {
      if isHigh then high else low
    }

    ghost predicate Sending(isHigh: bool)
      reads this
    {
      if isHigh then run.sv.SHigh? else run.sv.SLow?
    }

    /** One successful `write` of the loop; is the buffer finished? */
    method WriteHead(isHigh: bool, m: nat) returns (finished: bool)
      requires Tied() && Answered() && Sending(isHigh) && List(isHigh) != []
      modifies `high, `low, `wbSize, `run, `history
      ensures Tied() && Answered()
      ensures run == ServerIo(old(run), Wrote(Least(m, Left(old(List(isHigh))[0]))))
      ensures finished == (m >= Left(old(List(isHigh))[0]))
      ensures finished ==> Sending(isHigh) && List(isHigh) == old(List(isHigh))[1..]
      ensures !finished ==> run.sv == if isHigh then SUnlock else SRaise
      ensures !finished ==> List(isHigh) != []
      ensures List(!isHigh) == old(List(!isHigh))
    {
      hide Initial, Run, Inv;
      StillOpen();
      var list := List(isHigh);
      var n := Least(m, Left(list[0]));
      wbSize := wbSize - n;
      finished := n == Left(list[0]);
      var rest := if finished then list[1..] else [Buf(list[0].pkt, list[0].off + n)] + list[1..];
      if isHigh { high := rest; } else { low := rest; }
      Did(Io(Wrote(n)));
    }

    /** `send_list_tcp`; `writes` are the answers of the kernel, which then would block. */
    method SendList(isHigh: bool, writes: seq<Io>) returns (r: Ret)
      requires Tied() && Answered() && Sending(isHigh)
      modifies `high, `low, `dw, `kind, `wbSize, `writing, `run, `history
      ensures Tied() && Answered() && closing == old(closing)
      ensures r == Blocked && List(isHigh) == [] ==> Sending(isHigh)
      ensures r == Blocked && List(isHigh) != [] ==> run.sv == SUnlock || (!isHigh && run.sv == SRaise)
      ensures r != Blocked ==> run.sv == SUnlock
      ensures r == Blocked ==> kind == old(kind) && List(!isHigh) == old(List(!isHigh))
      ensures old(kind) == HalfRead ==> kind == HalfRead || kind == Invalid
      ensures run == Serve(old(run), isHigh, writes)
      ensures r == Err <==> kind == HalfWrite && old(kind) != HalfWrite
    {
      hide Initial, Run, Inv, ServerIo, FreeLists, CloseFd, SocketSend.CloseWrite, Answered;
      var k := 0;
      assert writes[0..] == writes;
      while List(isHigh) != []
        invariant k <= |writes| && Tied() && Answered() && Sending(isHigh)
        invariant kind == old(kind) && closing == old(closing) && List(!isHigh) == old(List(!isHigh))
        invariant Serve(run, isHigh, writes[k..]) == Serve(old(run), isHigh, writes)
        decreases |writes| - k
      {
        if k == |writes| || writes[k].Again? {
          Blocks(isHigh);
          return Blocked;
        }
        assert writes[k..][0] == writes[k] && writes[k..][1..] == writes[k + 1..];
        k := k + 1;
        match writes[k - 1] {
          case Error =>
            r := CloseWrite();
            return;
          case Wrote(n) =>
            var finished := WriteHead(isHigh, n);
            if !finished { return Blocked; }
        }
      }
      r := Blocked;
    }

    ghost method Blocks(isHigh: bool)
      requires Tied() && Answered() && Sending(isHigh) && List(isHigh) != []
      modifies `run, `history
      ensures Tied() && Answered() && run.sv == SUnlock && run == ServerIo(old(run), Again)
    {
      hide Initial, Run;
      Did(Io(Again));
    }

    ghost method Stepped(r: Io)
      requires Tied() && Answered() && ServerIo(run, r).so == Fields()
      modifies `run, `history
      ensures Tied() && Answered() && run == ServerIo(old(run), r)
    {
      hide Initial, Run, ServerIo;
      Did(Io(r));
    }

    /** Move the cut head of the low list to the high list, which is empty. */
    method RaiseUncomplete()
      requires Tied() && Answered() && run.sv.SRaise? && low != [] && low[0].off > 0
      modifies `high, `low, `run, `history
      ensures Tied() && Answered() && run.sv == SUnlock
      ensures high == [old(low)[0]] && low == old(low)[1..] && run == ServerIo(old(run), Again)
    {
      hide Initial, Run, Inv;
      var tmp := low[0];
      low := low[1..];
      assert high == [] by { EmptyHigh(); }
      high := [tmp];
      Did(Io(Again));
    }

    lemma EmptyHigh()
      requires Initial(start) && run == Run(start, history)
      ensures Asserted(run)
    {
      hide Run, Asserted;
      AssertionsHold(start, history);
    }

    /** `send_buffer_`, with the lock held. */
    method SendBuffer0(toHigh: seq<Io>, toLow: seq<Io>) returns (r: Event)
      requires Tied() && Answered() && run.sv.SHigh?
      modifies `high, `low, `dw, `kind, `wbSize, `writing, `run, `history
      ensures Tied() && Answered() && run.sv == SUnlock && (r == Ignored || r == Failed)
      ensures closing == old(closing) && run == SendAll(old(run), toHigh, toLow)
      ensures r == Failed <==> kind == HalfWrite && old(kind) != HalfWrite
      ensures old(kind) == HalfRead ==> kind == HalfRead || kind == Invalid
    {
      hide Initial, Run, Inv, Answered, SocketSend.CloseWrite, CloseFd, FreeLists, Put, Serve, ServerIo;
      assert low == [] || low[0].off == 0 by { EmptyHigh(); }
      // step 1
      var ret := SendList(true, toHigh);
      if ret != Blocked {
        return if ret == Err then Failed else Ignored;
      }
      r := Ignored;
      if high == [] {
        // step 2
        Passed(run);
        if low != [] {
          Stepped(Again);
          ret := SendList(false, toLow);
          if ret != Blocked {
            return if ret == Err then Failed else Ignored;
          }
          // step 3
          EmptyHigh();
          if low != [] && low[0].off > 0 {
            RaiseUncomplete();
            return Ignored;
          }
          if low != [] {
            Settle();
            return Ignored;
          }
          Passed(run);
        }
        Stepped(Again);
        // step 4
        Drained();
      }
    }

    ghost method Settle()
      requires Tied() && Answered() && (run.sv == SUnlock || run.sv == SRaise) && low != [] && low[0].off == 0
      modifies `run, `history
      ensures Tied() && Answered() && run.sv == SUnlock
      ensures run == if old(run).sv == SRaise then ServerIo(old(run), Again) else old(run)
    {
      hide Initial, Run;
      if run.sv == SRaise { Stepped(Again); }
    }

    /** Both lists are sent: finish a pending close, or stop waiting for write events. */
    method Drained()
      requires Tied() && Answered() && run.sv.SEmpty?
      modifies `high, `low, `dw, `kind, `writing, `run, `history
      ensures Tied() && Answered() && run.sv == SUnlock && closing == old(closing)
      ensures kind == (if closing then Invalid else old(kind)) && run == ServerIo(old(run), Again)
    {
      hide Initial, Run, Pending, Stashed;
      assert high == [] && low == [] && wbSize == 0 by { EmptyHigh(); }
      if closing {
        ForceCloseLocked();
      } else {
        writing := false;
      }
      Did(Io(Again));
    }

    // ---- what `socket_server_poll` dispatches

    /** Hand the answer of a handler to the service. */
    ghost method Raise(e: Event)
      requires Tied() && Answered() && (e == Data ==> Closed !in raised) && e != Closed
      modifies `raised
      ensures Tied() && Answered() && raised == old(raised) + [e]
    {
      hide Initial, Run;
      ClosedOncePush(raised, e);
      raised := raised + [e];
    }

    /** `send_buffer`; `locked` is the outcome of trying the lock. */
    method SendBuffer(locked: bool, toHigh: seq<Io>, toLow: seq<Io>) returns (r: Event)
      requires Valid() && kind != Invalid && kind != Connecting && locked == run.lock.Free?
      modifies `kind, `closing, `high, `low, `dw, `wbSize, `reading, `writing, `history, `run, `raised
      ensures Valid() && raised == old(raised) + [r] && (r == Ignored || r == Failed)
      ensures run == if locked then ServerIo(SendAll(ServerTrySend(old(run)), toHigh, toLow), Again) else old(run)
      ensures r == Failed <==> kind == HalfWrite && old(kind) != HalfWrite
      ensures old(kind) == HalfRead ==> kind == HalfRead || kind == Invalid
      // a pending close is finished when, and only when, nothing is left to send
      ensures locked && old(closing) ==> dw.None? && (kind == Invalid <==> high == [] && low == [])
      // unless a write fails nothing is dropped: what waited was sent or still waits
      ensures NoError(toHigh) && NoError(toLow) ==>
        && run.log.dropped == old(run).log.dropped
        && old(Waiting(Fields())) <= SetOf(run.log.done) + Waiting(Fields())
    {
      hide Initial, Run, ServerIo, Inv, OnlyWorkers, SendAll, Waiting, NoError;
      r := Ignored;
      if locked {
        ghost var st := run;
        TakeDirect();
        Begun(st);
        SendAllLeads(run, toHigh, toLow);
        r := SendBuffer0(toHigh, toLow);
        ghost var sent := run;
        Unlock();
        Unlocked(sent);
      }
      Raise(r);
    }

    /** Put the rest of a direct write before the high list. */
    method TakeDirect()
      requires Valid() && kind != Invalid && kind != Connecting && run.lock.Free?
      modifies `high, `dw, `wbSize, `run, `history
      ensures Tied() && Answered() && run.sv.SHigh? && Fields() == TakeDw(old(Fields())) && run == ServerTrySend(old(run))
    {
      hide Initial, Run;
      if dw.Some? {
        var buf := dw.value;
        wbSize := wbSize + Left(buf);
        high := [buf] + high;
        dw := None;
      }
      Did(TrySend);
    }

    /** Taking the rest of a direct write into the high list loses nothing. */
    lemma Begun(st: State)
      requires st.sv == SIdle && st.lock.Free? && st.so.kind != Connecting && st.so.kind != Invalid
      ensures var st' := ServerTrySend(st);
        Serving(st') && st'.log == st.log && Waiting(st'.so) == Waiting(st.so) && st'.so.closing == st.so.closing
    {
      var high := st.so.high;
      if st.so.dw.Some? {
        assert Packets([st.so.dw.value] + high) == [st.so.dw.value.pkt] + Packets(high);
      }
    }

    lemma Unlocked(st: State)
      requires st.sv == SUnlock
      ensures ServerIo(st, Again).so == st.so && ServerIo(st, Again).log == st.log
    {
    }

    ghost method Unlock()
      requires Tied() && Answered() && run.sv.SUnlock?
      modifies `run, `history
      ensures Valid() && run == ServerIo(old(run), Again)
    {
      hide Initial, Run;
      Did(Io(Again));
    }

    /** `send_socket` for a packet taken from the pipe, then `dec_sending_ref`. */
    method SendSocket(p: Packet)
      requires Valid() && run.pipe != [] && run.pipe[0] == Send(p)
      modifies `high, `low, `wbSize, `writing, `history, `run
      ensures Valid() && run == ServerDec(ServerHandle(old(run)))
      ensures Fields() == if Refuses(old(Fields())) then old(Fields()) else Append(old(Fields()), p)
      // dropped unless the socket takes data; one of low priority waits behind all others once something waits
      ensures old(kind == Invalid || kind == HalfWrite || kind == PAccept || closing) ==>
        high == old(high) && low == old(low) && run.log.dropped == old(run).log.dropped + {p}
      ensures old(kind != Invalid && kind != HalfWrite && kind != PAccept && !closing) ==>
        && run.log.dropped == old(run).log.dropped && wbSize == old(wbSize) + |p.data|
        && (if p.low && old(high != [] || low != []) then high == old(high) && low == old(low) + [Buf(p, 0)]
            else high == old(high) + [Buf(p, 0)] && low == old(low))
    {
      hide Initial, Run, Inv;
      if !(kind == Invalid || kind == HalfWrite || kind == PAccept || closing) {
        var buf := Buf(p, 0);
        if high == [] && low == [] {
          // the high list, whatever the priority
          high := high + [buf];
          writing := true;
        } else if p.low {
          low := low + [buf];
        } else {
          high := high + [buf];
        }
        wbSize := wbSize + |p.data|;
      }
      Did(Handle);
      assert run.sending > 0 by { EmptyHigh(); }
      Did(Dec);
    }

    /** `trigger_write` */
    method TriggerWrite()
      requires Valid() && run.pipe != [] && run.pipe[0] == Trigger
      modifies `writing, `run, `history
      ensures Valid() && (kind != Invalid ==> writing) && run == ServerHandle(old(run))
    {
      hide Initial, Run;
      if kind != Invalid { writing := true; }
      Did(Handle);
    }

    /** `close_read` */
    method CloseRead()
      requires kind != Invalid && kind != HalfWrite
      modifies `kind, `reading
      ensures kind == HalfRead && !reading
    {
      kind, reading := HalfRead, false;
    }

    /** What waits was not dropped. */
    lemma WaitingKept()
      requires Tied()
      ensures Waiting(Fields()) !! run.log.dropped
      ensures high == [] && low == [] && dw.None? ==> Waiting(Fields()) == {}
    {
      hide Run, Initial, OnePlace;
      NothingLost(start, history);
      QueuedInLine(run);
    }

    /** `close_socket` */
    method CloseSocket(shutdown: bool, sending: nat, ghost others: seq<Action>, left: Option<Buf>) returns (r: Event)
      requires Valid() && OnlyWorkers(others)
      requires kind != Invalid ==> Unlocks(others, left)
      modifies `kind, `closing, `high, `low, `dw, `wbSize, `reading, `writing, `history, `run, `raised
      ensures Valid() && raised == old(raised) + [r]
      ensures r == Closed <==> old(kind) != Invalid && old(kind) != HalfRead
      ensures run == if old(kind) == Invalid then old(run)
        else if shutdown || old(NoMore(sending)) then Closing(old(run), others) else ServerShut(old(run), true)
      ensures kind == if old(kind) == Invalid || shutdown || old(NoMore(sending)) then Invalid else HalfRead
      // without shutdown the socket stays open for what is not yet sent, and none of that is dropped
      ensures !shutdown && old(kind) != HalfWrite ==>
        && old(Waiting(Fields())) !! run.log.dropped
        && (kind == Invalid <==> old(kind) == Invalid || (old(high == [] && low == [] && dw.None?) && sending == 0))
      // with it, or when the peer takes no more, both lists are given up
      ensures old(kind) != Invalid && (shutdown || old(kind) == HalfWrite) ==>
        kind == Invalid && old(Pending(Fields())) <= run.log.dropped
    {
      hide Initial, Run, ServerFree, ServerFinish, Pending, Stashed;
      WaitingKept();
      r := Ignored;
      if kind != Invalid {
        var shutdownRead := kind == HalfRead;
        if shutdown || NoMore(sending) {
          ListsDropped(run, others);
          r := if shutdownRead then Ignored else Closed;
          ForceClose(others, left);
        } else {
          closing := true;
          if !shutdownRead {
            CloseRead();
            r := Closed;
          }
          Did(Shut(true));
        }
      }
      ClosedOncePush(raised, r);
      raised := raised + [r];
    }

    /** The lock becomes free while `force_close` waits for it. */
    ghost predicate Unlocks(others: seq<Action>, left: Option<Buf>)
      reads this
    {
      var freed := Run(ServerFree(run), others);
      freed.lock.Free? && freed.sv == SFreed && freed.so == FreeLists(Fields()).(dw := left)
    }

    /** `forward_message_tcp`, for `n` bytes read; `broken` tells a read error from no data yet. */
    method ForwardMessage(n: int, broken: bool, sending: nat, ghost others: seq<Action>, left: Option<Buf>)
      returns (r: Event)
      requires Valid() && kind != Invalid && kind != Connecting && OnlyWorkers(others) && Unlocks(others, left)
      modifies `kind, `closing, `high, `low, `dw, `wbSize, `reading, `writing, `history, `run, `raised
      ensures Valid() && raised == old(raised) + [r]
      ensures run == if n != 0 then old(run)
        else if old(closing) then (if old(NoMore(sending)) then Closing(old(run), others) else old(run))
        else if old(kind) == HalfRead then old(run)
        else if old(kind) == HalfWrite then Closing(old(run), others)
        else ServerShut(old(run), false)
      ensures r == Failed <==> n < 0 && broken
      ensures r == Closed <==> n == 0 && old(kind) != HalfRead
      ensures r == Data <==> n > 0 && old(kind) != HalfRead
      ensures old(kind) == HalfRead ==> kind == HalfRead || kind == Invalid
      ensures n != 0 ==> kind == old(kind)
      // after the end of file a pending close still waits for what is not yet sent
      ensures n == 0 && old(closing) ==>
        && old(Waiting(Fields())) !! run.log.dropped
        && (kind == Invalid <==> old(high == [] && low == [] && dw.None?) && sending == 0)
    {
      hide Initial, Run, ServerFree, ServerFinish, Pending, Stashed;
      WaitingKept();
      if n < 0 {
        r := if broken then Failed else Ignored;
      } else if n == 0 {
        r := Ignored;
        if closing {
          if NoMore(sending) { ForceClose(others, left); }
        } else if kind != HalfRead {
          r := Closed;
          if kind == HalfWrite {
            ForceClose(others, left);
          } else {
            CloseRead();
            Did(Shut(false));
          }
        }
      } else {
        r := if kind == HalfRead then Ignored else Data;
      }
      ClosedOncePush(raised, r);
      raised := raised + [r];
    }

    /** The end-of-file event of the poller. */
    method Eof(ghost others: seq<Action>, left: Option<Buf>) returns (r: Event)
      requires Valid() && kind != Invalid && kind != Connecting && OnlyWorkers(others) && Unlocks(others, left)
      modifies `kind, `closing, `high, `low, `dw, `wbSize, `reading, `writing, `history, `run, `raised
      ensures Valid() && raised == old(raised) + [r] && kind == Invalid && run == Closing(old(run), others)
      ensures r == Closed <==> old(kind) != HalfRead
    {
      hide Initial, Run, ServerFree, ServerFinish, Pending, Stashed;
      var halfclose := kind == HalfRead;
      r := if halfclose then Ignored else Closed;
      ForceClose(others, left);
      ClosedOncePush(raised, r);
      raised := raised + [r];
    }

    /** `resume_socket`; `readable` is the outcome of enabling read events. */
    method Resume(readable: bool) returns (r: Event)
      requires Valid()
      modifies `kind, `closing, `high, `low, `dw, `wbSize, `reading, `writing, `history, `run, `raised
      ensures Valid() && raised == old(raised) + [r] && r != Closed && r != Data
      ensures run == if old(kind) == PAccept && readable then ServerOpen(old(run)) else old(run)
      ensures r == Failed <==> old(kind) == Invalid || old(kind) == HalfRead || !readable
      ensures r == Opened <==> readable && (old(kind) == PAccept || old(kind) == Connected)
      ensures kind == if old(kind) == PAccept && readable then Connected else old(kind)
    {
      hide Initial, Run, Pending, Stashed;
      r := Ignored;
      if kind == Invalid || kind == HalfRead || !readable {
        r := Failed;
      } else {
        reading := true;
        if kind == PAccept {
          kind, r := Connected, Opened;
          Did(Open);
        } else if kind == Connected {
          r := Opened;
        }
      }
      Raise(r);
    }

    /** `report_connect`; the socket error is zero when `ok`. */
    method ReportConnect(ok: bool, ghost others: seq<Action>, left: Option<Buf>) returns (r: Event)
      requires Valid() && kind == Connecting && OnlyWorkers(others) && Unlocks(others, left)
      modifies `kind, `closing, `high, `low, `dw, `wbSize, `reading, `writing, `history, `run, `raised
      ensures Valid() && raised == old(raised) + [r]
      ensures run == if ok then ServerOpen(old(run)) else Closing(old(run), others)
      ensures kind == (if ok then Connected else Invalid) && r == if ok then Opened else Failed
    {
      hide Initial, Run, ServerFree, ServerFinish, Pending, Stashed;
      if ok {
        kind, r := Connected, Opened;
        Did(Open);
      } else {
        r := Failed;
        ForceClose(others, left);
      }
      ClosedOncePush(raised, r);
      raised := raised + [r];
    }

    /** Other threads run between two handlers. */
    method Others(ghost others: seq<Action>, left: Option<Buf>)
      requires Valid() && OnlyWorkers(others) && Run(run, others).so == Fields().(dw := left) && Run(run, others).sv == SIdle
      modifies `dw, `run, `history
      ensures Valid() && run == Run(old(run), others)
    {
      hide Initial;
      dw := left;
      RunAppend(start, history, others);
      history := history + others;
      run := Run(run, others);
    }
  }
}
