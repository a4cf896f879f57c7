/**
 * Sending on one TCP socket: several worker threads may write directly to the descriptor while the
 * socket thread owns the two write lists. Every shared read or write that another thread can
 * observe is a step of its own; only the region between taking and leaving `dw_lock` is exclusive.
 */
module SocketSend {
  import opened Words

  /** The `n`-th packet that `sender` handed over. */
  datatype Packet = Packet(sender: nat, n: nat, low: bool, data: seq<byte>)

  /** A write buffer; its first `off` bytes are on the wire. */
  datatype Buf = Buf(pkt: Packet, off: nat)

  datatype Kind = PAccept | Connecting | Connected | HalfRead | HalfWrite | Invalid

  datatype Owner = Free | Worker(w: nat) | Server

  /** Requests in the control pipe: 'W', and 'D' or 'P' according to the priority of the packet. */
  datatype Req = Trigger | Send(pkt: Packet)

  /** Reads made by `can_direct_write`, in order. `Half` is the alternative of
      `nomore_sending_data`; `Type(true)` comes after it. */
  datatype Stage = High | Low | Dw | Sending | Half | Type(afterHalf: bool)

  datatype Pc =
    | Idle
    | Entry(pkt: Packet)
    | Check(pkt: Packet, second: bool, stage: Stage)
    | TryLock(pkt: Packet)
    | Direct(pkt: Packet)
    | Stash(pkt: Packet, off: nat)
    | UnlockDone
    | UnlockTrigger
    | UnlockQueue(pkt: Packet)
    | IncTrigger
    | PushTrigger
    | Inc(pkt: Packet)
    | Push(pkt: Packet)

  datatype ServerPc = SIdle | SDec | SHigh | SLow | SRaise | SEmpty | SUnlock | SFreed

  /** The fields of `struct socket` that sending uses. */
  datatype Sock = Sock(kind: Kind, closing: bool, high: seq<Buf>, low: seq<Buf>, dw: Option<Buf>, wbSize: int)

  /** History: bytes on the wire, the packets they finish, the one they cut off, packets given up,
      packets taken over from callers; a cut packet whose rest was freed, and a packet torn by another. */
  datatype Log = Log(
    wire: seq<byte>, done: seq<Packet>, part: Option<Buf>, dropped: set<Packet>, taken: set<Packet>,
    cut: bool, torn: bool)

  datatype State = State(
    so: Sock, sending: nat, lock: Owner, pipe: seq<Req>, ws: seq<Pc>, next: seq<nat>, sv: ServerPc, log: Log)

  datatype Io = Error | Again | Wrote(n: nat)

  datatype Action =
    | Begin(w: nat, low: bool, data: seq<byte>)
    | Go(w: nat, n: nat)
    | Handle | Dec | TrySend | Io(r: Io) | Free | Finish | Shut(closing: bool) | Open

  const SENDING_MAX: nat := 0xffff

  function Flat(ps: seq<Packet>): seq<byte> {
    if ps == [] then [] else Flat(ps[..|ps| - 1]) + ps[|ps| - 1].data
  }

  function Written(part: Option<Buf>): seq<byte> {
    if part.Some? && part.value.off <= |part.value.pkt.data| then part.value.pkt.data[..part.value.off] else []
  }

  function Left(b: Buf): nat { if b.off <= |b.pkt.data| then |b.pkt.data| - b.off else 0 }

  function Total(bs: seq<Buf>): nat {
    if bs == [] then 0 else Left(bs[0]) + Total(bs[1..])
  }

  function Packets(bs: seq<Buf>): (r: seq<Packet>)
    ensures |r| == |bs|
  {
    seq(|bs|, i requires 0 <= i < |bs| => bs[i].pkt)
  }

  function SetOf(ps: seq<Packet>): set<Packet> { set p | p in ps }

  /** `write` takes the next `n` bytes of `b`. */
  function Put(log: Log, b: Buf, n: nat): Log
    requires n <= Left(b) && b.off <= |b.pkt.data|
  {
    log.(wire := log.wire + b.pkt.data[b.off..b.off + n],
         done := if n == Left(b) then log.done + [b.pkt] else log.done,
         part := if n == 0 then log.part else if n == Left(b) then None else Some(Buf(b.pkt, b.off + n)))
  }

  function Drop(log: Log, ps: set<Packet>): Log { log.(dropped := log.dropped + ps) }

  // ---- worker threads: socket_server_send and socket_server_send_lowpriority

  function Test(so: Sock, sending: nat, stage: Stage): bool {
    match stage
    case High => so.high == []
    case Low => so.low == []
    case Dw => so.dw.None?
    case Sending => sending == 0
    case Half => so.kind == HalfWrite
    case Type(_) => so.kind == Connected
  }

  /** Outcome of `can_direct_write` after one more read. */
  function After(pc: Pc, ok: bool): Pc
    requires pc.Check?
  {
    var pass := if pc.second then Direct(pc.pkt) else TryLock(pc.pkt);
    var miss := if pc.second then UnlockQueue(pc.pkt) else Inc(pc.pkt);
    var half := Check(pc.pkt, pc.second, Half);
    match pc.stage
    case High => if ok then pc.(stage := Low) else half
    case Low => if ok then pc.(stage := Dw) else half
    case Dw => if ok then pc.(stage := Sending) else half
    case Sending => if ok then pc.(stage := Type(false)) else half
    case Half => if ok then pc.(stage := Type(true)) else miss
    case Type(_) => if ok then pass else miss
  }

  function WorkerBegin(st: State, w: nat, low: bool, data: seq<byte>): State {
    if w < |st.ws| && w < |st.next| && st.ws[w].Idle? && st.so.kind != Invalid then
      var p := Packet(w, st.next[w], low, data);
      st.(ws := st.ws[w := if low then Inc(p) else Entry(p)],
          next := st.next[w := st.next[w] + 1],
          log := st.log.(taken := st.log.taken + {p}))
    else st
  }

  function WorkerGo(st: State, w: nat, n: nat): State
    requires w < |st.ws|
  {
    var pc := st.ws[w];
    match pc
    case Idle => st
    case Entry(p) =>
      if st.so.closing then st.(ws := st.ws[w := Idle], log := Drop(st.log, {p}))
      else st.(ws := st.ws[w := Check(p, false, High)])
    case Check(_, _, stage) => st.(ws := st.ws[w := After(pc, Test(st.so, st.sending, stage))])
    case TryLock(p) =>
      if st.lock.Free? then st.(ws := st.ws[w := Check(p, true, High)], lock := Worker(w))
      else st.(ws := st.ws[w := Inc(p)])
    case Direct(p) =>
      // a failed write counts as zero bytes
      if n > |p.data| then st else
      st.(ws := st.ws[w := if n == |p.data| then UnlockDone else Stash(p, n)],
          log := Put(st.log, Buf(p, 0), n).(torn := st.log.torn || (n > 0 && st.log.cut)))
    case Stash(p, off) => st.(ws := st.ws[w := UnlockTrigger], so := st.so.(dw := Some(Buf(p, off))))
    case UnlockDone => st.(ws := st.ws[w := Idle], lock := Owner.Free)
    case UnlockTrigger => st.(ws := st.ws[w := IncTrigger], lock := Owner.Free)
    case UnlockQueue(p) => st.(ws := st.ws[w := Inc(p)], lock := Owner.Free)
    case IncTrigger =>
      if st.sending < SENDING_MAX then st.(ws := st.ws[w := PushTrigger], sending := st.sending + 1) else st
    case PushTrigger => st.(ws := st.ws[w := Idle], pipe := st.pipe + [Trigger])
    case Inc(p) =>
      if st.sending < SENDING_MAX then st.(ws := st.ws[w := Push(p)], sending := st.sending + 1) else st
    case Push(p) => st.(ws := st.ws[w := Idle], pipe := st.pipe + [Send(p)])
  }

  // ---- the socket thread

  predicate Refuses(so: Sock) {
    so.kind == Invalid || so.kind == HalfWrite || so.kind == PAccept || so.closing
  }

  /** `append_sendbuffer` or `append_sendbuffer_low`, as `send_socket` chooses. */
  function Append(so: Sock, p: Packet): Sock {
    if (so.high == [] && so.low == []) || !p.low then
      so.(high := so.high + [Buf(p, 0)], wbSize := so.wbSize + |p.data|)
    else so.(low := so.low + [Buf(p, 0)], wbSize := so.wbSize + |p.data|)
  }

  /** `send_socket` or `trigger_write` for the first request in the pipe. */
  function ServerHandle(st: State): State {
    if st.sv != SIdle || st.pipe == [] then st else
    match st.pipe[0]
    case Trigger => st.(pipe := st.pipe[1..])
    case Send(p) =>
      if Refuses(st.so) then st.(pipe := st.pipe[1..], sv := SDec, log := Drop(st.log, {p}))
      else st.(pipe := st.pipe[1..], sv := SDec, so := Append(st.so, p))
  }

  function ServerDec(st: State): State {
    if st.sv == SDec && st.sending > 0 then st.(sv := SIdle, sending := st.sending - 1) else st
  }

  /** Put the rest of a direct write before the high list. */
  function TakeDw(so: Sock): Sock {
    if so.dw.None? then so
    else so.(high := [so.dw.value] + so.high, dw := None, wbSize := so.wbSize + Left(so.dw.value))
  }

  function ServerTrySend(st: State): State {
    if st.sv != SIdle || !st.lock.Free? || st.so.kind == Connecting || st.so.kind == Invalid then st
    else st.(sv := SHigh, lock := Server, so := TakeDw(st.so))
  }

  function Pending(so: Sock): set<Packet> {
    SetOf(Packets(so.high)) + SetOf(Packets(so.low))
  }

  /** First half of `force_close`: the lists are freed, with or without the lock. */
  function FreeLists(so: Sock): Sock { so.(high := [], low := []) }

  function Stashed(so: Sock): set<Packet> { if so.dw.Some? then {so.dw.value.pkt} else {} }

  /** Second half, always under the lock. */
  function CloseFd(so: Sock): Sock { so.(kind := Invalid, dw := None) }

  function ForceClose(st: State): State {
    st.(sv := SUnlock, so := CloseFd(FreeLists(st.so)), log := Drop(st.log, Pending(st.so) + Stashed(st.so)))
  }

  /** `close_write`, called with the lock held. */
  function CloseWrite(st: State): State {
    if st.so.closing || st.so.kind == HalfRead then ForceClose(st)
    else if st.so.kind == HalfWrite then st.(sv := SUnlock)
    else st.(sv := SUnlock, so := st.so.(kind := HalfWrite))
  }

  /** The list after `n` bytes of its head are written. */
  function Consume(bs: seq<Buf>, n: nat): seq<Buf>
    requires bs != []
  {
    if n == Left(bs[0]) then bs[1..] else [Buf(bs[0].pkt, bs[0].off + n)] + bs[1..]
  }

  predicate CanWrite(bs: seq<Buf>, n: nat) {
    bs != [] && n <= Left(bs[0]) && bs[0].off <= |bs[0].pkt.data|
  }

  /** One turn of the loop of `send_list_tcp` over the high list. */
  function SendHigh(st: State, r: Io): State {
    if st.so.high == [] then st.(sv := if st.so.low == [] then SEmpty else SLow)
    else match r
      case Error => CloseWrite(st)
      case Again => st.(sv := SUnlock)
      case Wrote(n) =>
        if !CanWrite(st.so.high, n) then st else
        st.(so := st.so.(high := Consume(st.so.high, n), wbSize := st.so.wbSize - n),
            log := Put(st.log, st.so.high[0], n),
            sv := if n == Left(st.so.high[0]) then SHigh else SUnlock)
  }

  function SendLow(st: State, r: Io): State {
    if st.so.low == [] then st.(sv := SEmpty)
    else match r
      case Error => CloseWrite(st)
      case Again => st.(sv := SUnlock)
      case Wrote(n) =>
        if !CanWrite(st.so.low, n) then st else
        st.(so := st.so.(low := Consume(st.so.low, n), wbSize := st.so.wbSize - n),
            log := Put(st.log, st.so.low[0], n),
            sv := if n == Left(st.so.low[0]) then SLow else SRaise)
  }

  /** `raise_uncomplete` when the head of the low list is cut. */
  function Raise(st: State): State {
    if st.so.low != [] && st.so.low[0].off > 0 then
      st.(sv := SUnlock, so := st.so.(high := [st.so.low[0]], low := st.so.low[1..]))
    else st.(sv := SUnlock)
  }

  function ServerIo(st: State, r: Io): State {
    match st.sv
    case SHigh => SendHigh(st, r)
    case SLow => SendLow(st, r)
    case SRaise => Raise(st)
    case SEmpty => if st.so.closing then ForceClose(st) else st.(sv := SUnlock)
    case SUnlock => st.(sv := SIdle, lock := Owner.Free)
    case _ => st
  }

  /** `force_close` outside `send_buffer`: the lock is taken only after the lists are freed. */
  function ServerFree(st: State): State {
    if st.sv != SIdle || st.so.kind == Invalid then st else
    st.(sv := SFreed, so := FreeLists(st.so),
        log := Drop(st.log, Pending(st.so)).(cut := st.log.cut || (st.so.high != [] && st.so.high[0].off > 0)))
  }

  function ServerFinish(st: State): State {
    if st.sv != SFreed || !st.lock.Free? then st
    else st.(sv := SIdle, so := CloseFd(st.so), log := Drop(st.log, Stashed(st.so)))
  }

  /** `close_socket` without shutdown, or `close_read` alone. */
  function ServerShut(st: State, closing: bool): State {
    if st.sv != SIdle || st.so.kind == Invalid || st.so.kind == HalfWrite then st
    else st.(so := st.so.(kind := HalfRead, closing := st.so.closing || closing))
  }

  /** `resume_socket` and `report_connect`. */
  function ServerOpen(st: State): State {
    if st.sv == SIdle && (st.so.kind == PAccept || st.so.kind == Connecting) then st.(so := st.so.(kind := Connected))
    else st
  }

  function Apply(st: State, a: Action): State {
    match a
    case Begin(w, low, data) => WorkerBegin(st, w, low, data)
    case Go(w, n) => if w < |st.ws| then WorkerGo(st, w, n) else st
    case Handle => ServerHandle(st)
    case Dec => ServerDec(st)
    case TrySend => ServerTrySend(st)
    case Io(r) => ServerIo(st, r)
    case Free => ServerFree(st)
    case Finish => ServerFinish(st)
    case Shut(closing) => ServerShut(st, closing)
    case Open => ServerOpen(st)
  }

  function Run(st: State, actions: seq<Action>): State
    decreases |actions|
  {
    if actions == [] then st else Run(Apply(st, actions[0]), actions[1..])
  }

  predicate Initial(st: State) {
    && (st.so.kind.PAccept? || st.so.kind.Connecting? || st.so.kind.Connected?)
    && st.so == Sock(st.so.kind, false, [], [], None, 0)
    && st.sending == 0 && st.lock == Owner.Free && st.pipe == [] && st.sv == SIdle
    && |st.ws| == |st.next| && (forall w :: 0 <= w < |st.ws| ==> st.ws[w] == Idle)
    && st.log == Log([], [], None, {}, {}, false, false)
  }
}
