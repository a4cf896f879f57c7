/**
 * The service scheduler: message queues that travel between a global list and the worker threads,
 * and reference-counted contexts. One step is one critical section or one atomic operation.
 */
module Scheduler {
  type Msg = nat

  /** A context together with its message queue; the last three fields are history. */
  datatype Service = Service(
    refs: nat, registered: bool, init: bool,
    inGlobal: bool, release: bool, freed: bool, queue: seq<Msg>,
    accepted: seq<Msg>, dispatched: seq<Msg>, dropped: seq<Msg>)

  /** What a thread is doing; a worker serving a message may be several of them at once. */
  datatype Pc =
    | Idle
    | Starts(s: nat)                          // skynet_context_new, inside the init function
    | Started(s: nat, live: bool)             // the service is up, its queue not yet public; `live`
                                              // when the release has returned the context
    | Reports(s: nat)                         // skynet_error on the new context
    | Launched(s: nat)                        // the caller reads the handle of the new context
    | Failed(s: nat)                          // init failed, the handle is still registered
    | Holds(s: nat)                           // a queue from the global list
    | Lost(s: nat)                            // no context for the queue: skynet_mq_release
    | Drops(s: nat)                           // _drop_queue
    | Runs(s: nat, i: nat, n: nat)            // the loop of skynet_context_message_dispatch
    | Sizes(s: nat, m: Msg, weight: nat)      // popped the first message, about to read the length
    | Calls(s: nat, m: Msg, i: nat, n: nat)   // dispatch_message
    | Next(s: nat)                            // after the loop
    | Back(s: nat, q: nat)                    // got the queue q, must give back s
    | Refs(s: nat)                            // after skynet_handle_grab or skynet_context_grab
    | Release(s: nat, after: Pc)              // skynet_context_release
    | Deletes(s: nat, after: Pc)              // delete_context

  datatype State = State(svcs: seq<Service>, global: seq<nat>, ws: seq<Pc>)

  datatype Choice =
    | Step
    | New
    | Take
    | Grab(s: nat)
    | Retire(s: nat)
    | InitFails
    | Push(m: Msg)
    | Weight(weight: int)

  function PushGlobal(st: State, s: nat): State { st.(global := st.global + [s]) }

  function With(st: State, s: nat, v: Service): State
    requires s < |st.svcs|
  {
    st.(svcs := st.svcs[s := v])
  }

  function At(st: State, w: nat, pc: Pc): State
    requires w < |st.ws|
  {
    st.(ws := st.ws[w := pc])
  }

  function NewService(): Service {
    Service(2, true, false, true, false, false, [], [], [], [])
  }

  /** `skynet_mq_push` */
  function MqPush(st: State, s: nat, m: Msg): State
    requires s < |st.svcs|
  {
    var v := st.svcs[s];
    var st' := With(st, s, v.(queue := v.queue + [m], accepted := v.accepted + [m], inGlobal := true));
    if v.inGlobal then st' else PushGlobal(st', s)
  }

  /** `skynet_mq_mark_release` */
  function MarkRelease(st: State, s: nat): State
    requires s < |st.svcs|
  {
    var v := st.svcs[s];
    var st' := With(st, s, v.(release := true));
    if v.inGlobal then st' else PushGlobal(st', s)
  }

  /** `n >> k` */
  function Shift(n: nat, k: nat): nat
    decreases k
  {
    if k == 0 then n else Shift(n / 2, k - 1)
  }

  function Unreg(st: State, s: nat): State
    requires s < |st.svcs|
  {
    With(st, s, st.svcs[s].(registered := false))
  }

  function AddRef(st: State, s: nat): State
    requires s < |st.svcs|
  {
    With(st, s, st.svcs[s].(refs := st.svcs[s].refs + 1))
  }

  function FromIdle(st: State, w: nat, c: Choice): State
    requires w < |st.ws|
  {
    match c
    case New => At(st.(svcs := st.svcs + [NewService()]), w, Starts(|st.svcs|))
    case Take => if st.global == [] then st else At(st.(global := st.global[1..]), w, Holds(st.global[0]))
    case Grab(s) => if s < |st.svcs| && st.svcs[s].registered then At(AddRef(st, s), w, Refs(s)) else st
    case Retire(s) => if s < |st.svcs| && st.svcs[s].registered then At(Unreg(st, s), w, Release(s, Idle)) else st
    case _ => st
  }

  /** All services that a thread is concerned with exist; there are `n` of them. */
  predicate Known(n: nat, pc: Pc) {
    match pc
    case Idle => true
    case Back(s, q) => s < n && q < n
    case Release(s, after) => s < n && (after.Idle? || (!after.Back? && after.s < n))
    case Deletes(s, after) => s < n && (after.Idle? || (!after.Back? && after.s < n))
    case _ => pc.s < n
  }

  /** The queue side: steps of the thread that holds the queue `s`. */
  function Holder(st: State, w: nat, c: Choice): State
    requires w < |st.ws| && Known(|st.svcs|, st.ws[w])
  {
    match st.ws[w]
    case Holds(s) =>
      if st.svcs[s].registered then At(AddRef(st, s), w, Runs(s, 0, 1)) else At(st, w, Lost(s))
    case Lost(s) =>
      if st.svcs[s].release then At(st, w, Drops(s)) else At(PushGlobal(st, s), w, Idle)
    case Drops(s) =>
      var v := st.svcs[s];
      if v.queue == [] then At(With(st, s, v.(inGlobal := false, freed := true)), w, Idle)
      else With(st, s, v.(queue := v.queue[1..], dropped := v.dropped + [v.queue[0]]))
    case Runs(s, i, n) =>
      var v := st.svcs[s];
      if v.queue == [] then At(With(st, s, v.(inGlobal := false)), w, Release(s, Idle))
      else
        var pc := if i == 0 && c.Weight? && c.weight >= 0 then Sizes(s, v.queue[0], c.weight) else Calls(s, v.queue[0], i, n);
        At(With(st, s, v.(queue := v.queue[1..])), w, pc)
    case Sizes(s, m, weight) => At(st, w, Calls(s, m, 0, Shift(|st.svcs[s].queue|, weight)))
    case Calls(s, m, i, n) =>
      var v := st.svcs[s];
      At(With(st, s, v.(dispatched := v.dispatched + [m])), w, if i + 1 < n then Runs(s, i + 1, n) else Next(s))
    case Next(s) =>
      if st.global == [] then At(st, w, Release(s, Holds(s)))
      else At(st.(global := st.global[1..]), w, Back(s, st.global[0]))
    case Back(s, q) => At(PushGlobal(st, s), w, Release(s, Holds(q)))
    case _ => st
  }

  /** A release that deletes the context returns nothing to go on with. */
  function Gone(after: Pc): Pc { if after.Started? then after.(live := false) else after }

  /** The context side: starting, using, releasing and deleting. */
  function Owner(st: State, w: nat, c: Choice): State
    requires w < |st.ws| && Known(|st.svcs|, st.ws[w])
  {
    match st.ws[w]
    case Starts(s) => At(st, w, Release(s, if c.InitFails? then Failed(s) else Started(s, true)))
    case Started(s, live) =>
      var v := st.svcs[s];
      At(PushGlobal(With(st, s, v.(init := v.init || live)), s), w, if live then Reports(s) else Idle)
    case Reports(s) => At(st, w, Launched(s))
    case Launched(s) => At(st, w, Idle)
    case Failed(s) =>
      if st.svcs[s].registered then At(Unreg(st, s), w, Release(s, Lost(s))) else At(st, w, Lost(s))
    case Refs(s) => if c.Push? then MqPush(st, s, c.m) else At(st, w, Release(s, Idle))
    case Release(s, after) =>
      var v := st.svcs[s];
      if v.refs == 0 then st
      else At(With(st, s, v.(refs := v.refs - 1)), w, if v.refs == 1 then Deletes(s, Gone(after)) else after)
    case Deletes(s, after) => At(MarkRelease(st, s), w, after)
    case _ => st
  }

  function Go(st: State, w: nat, c: Choice): State {
    if w >= |st.ws| || !Known(|st.svcs|, st.ws[w]) then st
    else match st.ws[w]
      case Idle => FromIdle(st, w, c)
      case Holds(_) => Holder(st, w, c)
      case Lost(_) => Holder(st, w, c)
      case Drops(_) => Holder(st, w, c)
      case Runs(_, _, _) => Holder(st, w, c)
      case Sizes(_, _, _) => Holder(st, w, c)
      case Calls(_, _, _, _) => Holder(st, w, c)
      case Next(_) => Holder(st, w, c)
      case Back(_, _) => Holder(st, w, c)
      case _ => Owner(st, w, c)
  }

  function Run(st: State, steps: seq<(nat, Choice)>): State
    decreases |steps|
  {
    if steps == [] then st else Run(Go(st, steps[0].0, steps[0].1), steps[1..])
  }

  predicate Initial(st: State) {
    st.svcs == [] && st.global == [] && forall w :: 0 <= w < |st.ws| ==> st.ws[w] == Idle
  }
}
