/**
 * Consequences for every run of the scheduler: exclusive dispatch, one deletion, and the fate of messages.
 */
module SchedulerSafety {
  import opened Scheduler
  import opened SchedulerProof

  // ---- a queue has one holder

  /** Two threads, or a thread and the global list, never have the same queue. */
  lemma OneHolder(st: State, w: nat, w': nat, x: nat)
    requires AllBalanced(st) && x < |st.svcs| && w < |st.ws| && w' < |st.ws| && w != w'
    requires Has(st.ws[w], Queue, x) > 0
    ensures Has(st.ws[w'], Queue, x) == 0 && Times(st.global, x) == 0 && !st.svcs[x].freed
  {
    hide Has, Sum, Times;
    assert Balanced(st, x);
    SumMember(st.ws, w, Queue, x);
    if w < w' { SumTwo(st.ws, w, w', Queue, x); } else { SumTwo(st.ws, w', w, Queue, x); }
  }

  /** Once released, always released; and only a released queue is dropped. */
  predicate Monotone(st: State, st': State, w: nat) {
    && |st'.ws| == |st.ws| && w < |st.ws| && st'.ws == st.ws[w := st'.ws[w]] && |st.svcs| <= |st'.svcs|
    && (forall x :: 0 <= x < |st.svcs| && st.svcs[x].release ==> st'.svcs[x].release)
    && (st'.ws[w].Drops? ==> st'.ws[w].s < |st.svcs| && st.svcs[st'.ws[w].s].release)
  }

  lemma MonotoneHolder(st: State, w: nat, c: Choice)
    requires w < |st.ws| && Known(|st.svcs|, st.ws[w]) && DropsReleased(st)
    ensures Monotone(st, Holder(st, w, c), w)
  {
    hide Shift;
  }

  lemma MonotoneOwner(st: State, w: nat, c: Choice)
    requires w < |st.ws| && Known(|st.svcs|, st.ws[w]) && Plain(st.ws[w]) && !st.ws[w].Drops?
    ensures Monotone(st, Owner(st, w, c), w)
  {
  }

  lemma DropsKept(st: State, w: nat, c: Choice)
    requires Named(st) && DropsReleased(st)
    ensures DropsReleased(Go(st, w, c))
  {
    hide Holder, Owner;
    if w < |st.ws| {
      assert Known(|st.svcs|, st.ws[w]) && Plain(st.ws[w]);
      hide Named, Known, Plain;
      MonotoneHolder(st, w, c);
      if !st.ws[w].Drops? { MonotoneOwner(st, w, c); }
      var st' := Go(st, w, c);
      assert Monotone(st, st', w);
      assert forall v :: 0 <= v < |st.ws| && v != w ==> st'.ws[v] == st.ws[v];
    }
  }

  // ---- a served context is initialised

  /** The thread is starting the service `x`, and has not been told that the context is gone. */
  predicate Creates(pc: Pc, x: nat) {
    match pc
    case Release(_, after) => Comes(after, x)
    case Deletes(_, after) => Comes(after, x)
    case _ => (pc.Starts? && pc.s == x) || Comes(pc, x)
  }

  predicate Comes(pc: Pc, x: nat) { ((pc.Started? && pc.live) || pc.Failed?) && pc.s == x }

  predicate Serves(pc: Pc, x: nat) { (pc.Runs? || pc.Sizes? || pc.Calls?) && pc.s == x }

  predicate InitFirst(st: State, x: nat)
    requires x < |st.svcs|
  {
    && (st.svcs[x].registered && !st.svcs[x].init ==> exists w :: 0 <= w < |st.ws| && Creates(st.ws[w], x))
    && (forall w :: 0 <= w < |st.ws| && Serves(st.ws[w], x) ==> st.svcs[x].init)
  }

  predicate AllInit(st: State) { forall x :: 0 <= x < |st.svcs| ==> InitFirst(st, x) }

  /** The acting thread either keeps creating `x`, or ends with `x` initialised or unregistered. */
  predicate InitMoves(st: State, st': State, w: nat, x: nat) {
    && |st'.ws| == |st.ws| && w < |st.ws| && st'.ws == st.ws[w := st'.ws[w]] && x < |st.svcs| && x < |st'.svcs|
    && (st.svcs[x].init ==> st'.svcs[x].init)
    && (st'.svcs[x].registered ==> st.svcs[x].registered)
    && (Creates(st.ws[w], x) ==> Creates(st'.ws[w], x) || st'.svcs[x].init || !st'.svcs[x].registered)
    && (Serves(st'.ws[w], x) ==> Serves(st.ws[w], x) || (st.ws[w] == Holds(x) && st.svcs[x].registered))
  }

  lemma InitHolder(st: State, w: nat, c: Choice, x: nat)
    requires Sound(st, w, x) && (st.ws[w].Idle? || !Creates(st.ws[w], x))
    ensures InitMoves(st, Holder(st, w, c), w, x)
  {
    hide Shift, Has;
  }

  lemma InitOwner(st: State, w: nat, c: Choice, x: nat)
    requires Sound(st, w, x) && !Serves(st.ws[w], x)
    ensures InitMoves(st, Owner(st, w, c), w, x)
  {
    hide Has;
    LastReference(st, w, x);
  }

  /** The release that deletes a context finds it unregistered. */
  lemma LastReference(st: State, w: nat, x: nat)
    requires Sound(st, w, x)
    ensures st.ws[w].Release? && st.ws[w].s == x && st.svcs[x].refs == 1 ==> !st.svcs[x].registered
  {
  }

  lemma InitStep(st: State, w: nat, c: Choice, x: nat)
    requires Sound(st, w, x)
    ensures InitMoves(st, Go(st, w, c), w, x)
  {
    hide Holder, Owner, InitMoves, Has;
    assert Known(|st.svcs|, st.ws[w]);
    match st.ws[w]
    case Idle => InitIdle(st, w, c, x);
    case Starts(_) => InitOwner(st, w, c, x);
    case Started(_, _) => InitOwner(st, w, c, x);
    case Reports(_) => InitOwner(st, w, c, x);
    case Launched(_) => InitOwner(st, w, c, x);
    case Failed(_) => InitOwner(st, w, c, x);
    case Refs(_) => InitOwner(st, w, c, x);
    case Release(_, _) => InitOwner(st, w, c, x);
    case Deletes(_, _) => InitOwner(st, w, c, x);
    case _ => InitHolder(st, w, c, x);
  }

  lemma InitIdle(st: State, w: nat, c: Choice, x: nat)
    requires Sound(st, w, x) && st.ws[w].Idle?
    ensures InitMoves(st, FromIdle(st, w, c), w, x)
  {
  }

  /** The creator of a service has its queue; so has who took it from the global list. */
  lemma HoldsOrCreates(pc: Pc, x: nat)
    requires Creates(pc, x)
    ensures pc != Holds(x) && Has(pc, Queue, x) > 0 && Has(Holds(x), Queue, x) > 0
  {
  }

  lemma InitKept(st: State, w: nat, c: Choice, x: nat)
    requires Sound(st, w, x) && AllBalanced(st) && InitFirst(st, x)
    ensures x < |Go(st, w, c).svcs| && InitFirst(Go(st, w, c), x)
  {
    hide Go, Sound, AllBalanced, Creates, Serves, Has;
    InitStep(st, w, c, x);
    var st' := Go(st, w, c);
    assert forall v :: 0 <= v < |st.ws| && v != w ==> st'.ws[v] == st.ws[v];
    SoundKnows(st, w, x);
    if st'.svcs[x].registered && !st'.svcs[x].init {
      var v :| 0 <= v < |st.ws| && Creates(st.ws[v], x);
      assert Creates(st'.ws[v], x);
    }
    if Serves(st'.ws[w], x) && !Serves(st.ws[w], x) && !st.svcs[x].init {
      var v :| 0 <= v < |st.ws| && Creates(st.ws[v], x);
      HoldsOrCreates(st.ws[v], x);
      OneHolder(st, w, v, x);
    }
  }

  lemma AllInitKept(st: State, w: nat, c: Choice)
    requires Named(st) && AllBalanced(st) && AllLive(st) && AllInit(st)
    ensures AllInit(Go(st, w, c))
  {
    hide Go, Named, AllBalanced, AllLive, InitFirst;
    var st' := Go(st, w, c);
    Grows(st, w, c);
    if w < |st.ws| {
      forall x | 0 <= x < |st'.svcs| ensures InitFirst(st', x) {
        if x < |st.svcs| {
          IsSound(st, w, x);
          InitKept(st, w, c, x);
        } else {
          InitNew(st, w, c);
        }
      }
    } else {
      NoSuchThread(st, w, c);
    }
  }

  lemma InitNew(st: State, w: nat, c: Choice)
    requires Named(st) && w < |st.ws| && st.ws[w].Idle? && c.New?
    ensures InitFirst(Go(st, w, c), |st.svcs|)
  {
    var st' := Go(st, w, c);
    assert Creates(st'.ws[w], |st.svcs|);
    forall v | 0 <= v < |st.ws| && v != w ensures !Serves(st'.ws[v], |st.svcs|) {
      assert Known(|st.svcs|, st.ws[v]);
    }
  }

  // ---- messages

  predicate Flies(pc: Pc, x: nat) { (pc.Sizes? || pc.Calls?) && pc.s == x }

  /** What was accepted is what was dispatched, or dropped after the release, and what is queued, in order. */
  predicate Logged(v: Service) { v.accepted == v.dispatched + v.dropped + v.queue }

  /** The same while a thread is dispatching `m`. */
  predicate LoggedWith(v: Service, m: Msg) {
    v.dropped == [] && v.accepted == v.dispatched + [m] + v.queue
  }

  predicate Messages(st: State, x: nat)
    requires x < |st.svcs|
  {
    && (Sum(st.ws, Message, x) == 0 ==> Logged(st.svcs[x]))
    && (forall w :: 0 <= w < |st.ws| && Flies(st.ws[w], x) ==> LoggedWith(st.svcs[x], st.ws[w].m))
  }

  predicate AllMessages(st: State) { forall x :: 0 <= x < |st.svcs| ==> Messages(st, x) }

  /** A thread that holds the queue and has no message in hand keeps others from having one. */
  lemma {:induction false} NoFlight(ws: seq<Pc>, w: nat, x: nat)
    requires w < |ws|
    ensures Sum(ws, Message, x) + Has(ws[w], Queue, x) <= Sum(ws, Queue, x) + Has(ws[w], Message, x)
  {
    FlightLe(ws[1..], x);
    if w > 0 {
      NoFlight(ws[1..], w - 1, x);
    }
  }

  lemma {:induction false} FlightLe(ws: seq<Pc>, x: nat)
    ensures Sum(ws, Message, x) <= Sum(ws, Queue, x)
  {
    if ws != [] { FlightLe(ws[1..], x); }
  }

  lemma FlightHas(pc: Pc, x: nat)
    ensures Has(pc, Message, x) == B(Flies(pc, x))
  {
  }

  lemma FlightSum(st: State, st': State, w: nat, x: nat)
    requires w < |st.ws| == |st'.ws| && st'.ws == st.ws[w := st'.ws[w]]
    ensures Sum(st'.ws, Message, x) == Sum(st.ws, Message, x) - B(Flies(st.ws[w], x)) + B(Flies(st'.ws[w], x))
    ensures forall v :: 0 <= v < |st.ws| && Flies(st.ws[v], x) ==> Sum(st.ws, Message, x) > 0
  {
    hide Has, Sum;
    SumSet(st.ws, w, st'.ws[w], Message, x);
    FlightHas(st.ws[w], x);
    FlightHas(st'.ws[w], x);
    forall v | 0 <= v < |st.ws| && Flies(st.ws[v], x) ensures Sum(st.ws, Message, x) > 0 {
      SumMember(st.ws, v, Message, x);
      FlightHas(st.ws[v], x);
    }
  }

  lemma AloneInFlight(st: State, w: nat, x: nat)
    requires AllBalanced(st) && x < |st.svcs| && w < |st.ws| && Has(st.ws[w], Queue, x) > 0
    ensures Sum(st.ws, Message, x) <= B(Flies(st.ws[w], x))
  {
    hide Has, Sum, Times;
    assert Balanced(st, x);
    NoFlight(st.ws, w, x);
    FlightHas(st.ws[w], x);
  }

  predicate SameLog(v: Service, v': Service) {
    v'.accepted == v.accepted && v'.dispatched == v.dispatched && v'.dropped == v.dropped && v'.queue == v.queue
  }

  lemma MessagesSame(st: State, st': State, w: nat, x: nat)
    requires Messages'(st, x) && w < |st.ws| == |st'.ws| && st'.ws == st.ws[w := st'.ws[w]]
    requires x < |st'.svcs| && SameLog(st.svcs[x], st'.svcs[x])
    requires Flies(st'.ws[w], x) == Flies(st.ws[w], x) && (Flies(st.ws[w], x) ==> st'.ws[w].m == st.ws[w].m)
    ensures Messages(st', x)
  {
    hide Sum;
    FlightSum(st, st', w, x);
  }

  predicate Messages'(st: State, x: nat) { x < |st.svcs| && Messages(st, x) }

  lemma MessagesPush(st: State, w: nat, m: Msg, x: nat)
    requires Messages'(st, x) && w < |st.ws| && st.ws[w].Refs? && st.ws[w].s < |st.svcs|
    ensures Messages(MqPush(st, st.ws[w].s, m), x)
  {
    hide Sum;
    var v := st.svcs[x];
    assert v.dispatched + v.dropped + (v.queue + [m]) == (v.dispatched + v.dropped + v.queue) + [m];
    forall k | 0 <= k < |st.ws| && Flies(st.ws[k], x)
      ensures v.dispatched + [st.ws[k].m] + (v.queue + [m]) == (v.dispatched + [st.ws[k].m] + v.queue) + [m]
    {
    }
  }

  lemma MessagesPushed(st: State, w: nat, c: Choice, x: nat)
    requires Messages'(st, x) && w < |st.ws| && st.ws[w].Refs? && st.ws[w].s < |st.svcs| && c.Push?
    ensures x < |Go(st, w, c).svcs| && Messages(Go(st, w, c), x)
  {
    hide Sum, Messages;
    MessagesPush(st, w, c.m, x);
  }

  lemma MessagesMean(st: State, x: nat)
    requires x < |st.svcs|
    ensures Messages(st, x) <==>
      && (Sum(st.ws, Message, x) == 0 ==> Logged(st.svcs[x]))
      && (forall w :: 0 <= w < |st.ws| && Flies(st.ws[w], x) ==> LoggedWith(st.svcs[x], st.ws[w].m))
  {
  }

  lemma MessagesPop(st: State, w: nat, c: Choice, x: nat)
    requires Messages'(st, x) && Sound(st, w, x) && AllBalanced(st) && st.ws[w].Runs?
    ensures Messages(Holder(st, w, c), x)
  {
    hide Sum, AllBalanced, Sound, Messages;
    SoundKnows(st, w, x);
    var st' := Holder(st, w, c);
    var v := st.svcs[x];
    if st.ws[w].s == x && v.queue != [] {
      AloneInFlight(st, w, x);
      FlightSum(st, st', w, x);
      MessagesMean(st, x);
      assert [v.queue[0]] + v.queue[1..] == v.queue;
      assert LoggedWith(st'.svcs[x], v.queue[0]);
      MessagesMean(st', x);
    } else {
      MessagesSame(st, st', w, x);
    }
  }

  lemma MessagesDispatch(st: State, w: nat, c: Choice, x: nat)
    requires Messages'(st, x) && Sound(st, w, x) && AllBalanced(st) && (st.ws[w].Calls? || st.ws[w].Sizes?)
    ensures Messages(Holder(st, w, c), x)
  {
    hide Sum, AllBalanced, Sound, Shift;
    SoundKnows(st, w, x);
    var st' := Holder(st, w, c);
    var v := st.svcs[x];
    if st.ws[w].Calls? && st.ws[w].s == x {
      AloneInFlight(st, w, x);
      FlightSum(st, st', w, x);
      assert forall k :: 0 <= k < |st.ws| ==> !Flies(st'.ws[k], x) by {
        FlightSum(st', st', w, x);
      }
      assert v.dispatched + [st.ws[w].m] + [] + v.queue == v.dispatched + [st.ws[w].m] + v.queue;
    } else {
      MessagesSame(st, st', w, x);
    }
  }

  lemma MessagesDrop(st: State, w: nat, c: Choice, x: nat)
    requires Messages'(st, x) && Sound(st, w, x) && AllBalanced(st) && st.ws[w].Drops?
    ensures Messages(Holder(st, w, c), x)
  {
    hide Sum, AllBalanced, Sound;
    SoundKnows(st, w, x);
    var st' := Holder(st, w, c);
    var v := st.svcs[x];
    if st.ws[w].s == x && v.queue != [] {
      AloneInFlight(st, w, x);
      FlightSum(st, st', w, x);
      assert [v.queue[0]] + v.queue[1..] == v.queue;
      assert v.dispatched + (v.dropped + [v.queue[0]]) + v.queue[1..] == v.dispatched + v.dropped + v.queue;
    } else {
      MessagesSame(st, st', w, x);
    }
  }

  /** The other steps leave the log alone. */
  predicate Untouched(st: State, st': State, w: nat, x: nat) {
    && |st'.ws| == |st.ws| && w < |st.ws| && st'.ws == st.ws[w := st'.ws[w]] && x < |st.svcs| && x < |st'.svcs|
    && SameLog(st.svcs[x], st'.svcs[x]) && !Flies(st'.ws[w], x) && !Flies(st.ws[w], x)
  }

  lemma UntouchedHolder(st: State, w: nat, c: Choice, x: nat)
    requires Sound(st, w, x) && !st.ws[w].Runs? && !st.ws[w].Calls? && !st.ws[w].Sizes? && !st.ws[w].Drops?
    ensures Untouched(st, Holder(st, w, c), w, x)
  {
    hide Has;
  }

  lemma UntouchedOwner(st: State, w: nat, c: Choice, x: nat)
    requires Sound(st, w, x) && !st.ws[w].Refs? && !st.ws[w].Sizes? && !st.ws[w].Calls?
    ensures Untouched(st, Owner(st, w, c), w, x)
  {
    hide Has;
  }

  lemma LogUntouched(st: State, w: nat, c: Choice, x: nat)
    requires Sound(st, w, x) && !st.ws[w].Refs? && !st.ws[w].Runs? && !st.ws[w].Calls? && !st.ws[w].Sizes? && !st.ws[w].Drops?
    ensures Untouched(st, Go(st, w, c), w, x)
  {
    hide Has, Holder, Owner;
    UntouchedHolder(st, w, c, x);
    UntouchedOwner(st, w, c, x);
  }

  lemma MessagesKept(st: State, w: nat, c: Choice, x: nat)
    requires Messages'(st, x) && Sound(st, w, x) && AllBalanced(st)
    ensures x < |Go(st, w, c).svcs| && Messages(Go(st, w, c), x)
  {
    hide Sum, AllBalanced, Sound, Messages, FromIdle, MqPush;
    SoundKnows(st, w, x);
    match st.ws[w]
    case Refs(s) =>
      if c.Push? { MessagesPushed(st, w, c, x); } else { MessagesSame(st, Go(st, w, c), w, x); }
    case Runs(_, _, _) => MessagesPop(st, w, c, x);
    case Calls(_, _, _, _) => MessagesDispatch(st, w, c, x);
    case Sizes(_, _, _) => MessagesDispatch(st, w, c, x);
    case Drops(_) => MessagesDrop(st, w, c, x);
    case _ =>
      hide Go;
      LogUntouched(st, w, c, x);
      MessagesSame(st, Go(st, w, c), w, x);
  }

  lemma MessagesNew(st: State, w: nat, c: Choice)
    requires Named(st) && w < |st.ws| && st.ws[w].Idle? && c.New?
    ensures Messages(Go(st, w, c), |st.svcs|)
  {
    hide Sum;
    forall v | 0 <= v < |st.ws| ensures !Flies(Go(st, w, c).ws[v], |st.svcs|) {
      assert Known(|st.svcs|, st.ws[v]);
    }
  }

  lemma AllMessagesKept(st: State, w: nat, c: Choice)
    requires Named(st) && AllBalanced(st) && AllLive(st) && AllMessages(st)
    ensures AllMessages(Go(st, w, c))
  {
    hide Go, Named, AllBalanced, AllLive, Messages;
    var st' := Go(st, w, c);
    Grows(st, w, c);
    if w < |st.ws| {
      forall x | 0 <= x < |st'.svcs| ensures Messages(st', x) {
        if x < |st.svcs| {
          IsSound(st, w, x);
          MessagesKept(st, w, c, x);
        } else {
          MessagesNew(st, w, c);
        }
      }
    } else {
      NoSuchThread(st, w, c);
    }
  }

  // ---- every run

  predicate Inv(st: State) {
    Named(st) && AllBalanced(st) && AllLive(st) && DropsReleased(st)
  }

  ghost predicate Sure(st: State) { Inv(st) && AllInit(st) && AllMessages(st) }

  lemma {:induction false} RunSure(st: State, steps: seq<(nat, Choice)>)
    requires Sure(st)
    ensures Sure(Run(st, steps))
    decreases |steps|
  {
    if steps != [] {
      var (w, c) := steps[0];
      hide Named, AllBalanced, AllLive, DropsReleased, AllInit, AllMessages, Go;
      NamedKept(st, w, c);
      BalancedKept(st, w, c);
      LifeKept(st, w, c);
      DropsKept(st, w, c);
      AllInitKept(st, w, c);
      AllMessagesKept(st, w, c);
      RunSure(Go(st, w, c), steps[1..]);
    }
  }

  lemma InitialSure(st: State)
    requires Initial(st)
    ensures Sure(st)
  {
  }

  lemma Reachable(st0: State, steps: seq<(nat, Choice)>)
    requires Initial(st0)
    ensures Sure(Run(st0, steps))
  {
    InitialSure(st0);
    RunSure(st0, steps);
  }

  /** A live queue is with its creator, once in the global list, with one worker, or idle and empty. */
  lemma OneOfFourPlaces(st0: State, steps: seq<(nat, Choice)>, x: nat)
    requires Initial(st0) && x < |Run(st0, steps).svcs|
    ensures var st := Run(st0, steps); var v := st.svcs[x];
      && Times(st.global, x) + Sum(st.ws, Queue, x) <= 1
      && (Times(st.global, x) + Sum(st.ws, Queue, x) == 0 ==> v.freed || (!v.inGlobal && v.queue == []))
      && (v.freed ==> Times(st.global, x) + Sum(st.ws, Queue, x) == 0)
  {
    Reachable(st0, steps);
    hide Run, AllInit, AllMessages, Sum, Times;
    var st := Run(st0, steps);
    assert Balanced(st, x) && Life(st.svcs[x]);
  }

  /** No two threads serve the same service, and what is served is initialised and alive. */
  lemma ExclusiveDispatch(st0: State, steps: seq<(nat, Choice)>, w: nat, x: nat)
    requires Initial(st0) && w < |Run(st0, steps).ws| && x < |Run(st0, steps).svcs|
    requires Serves(Run(st0, steps).ws[w], x)
    ensures var st := Run(st0, steps);
      && st.svcs[x].init && st.svcs[x].refs > 0 && !st.svcs[x].freed
      && (forall w' :: 0 <= w' < |st.ws| && w' != w ==> !Serves(st.ws[w'], x))
  {
    Reachable(st0, steps);
    var st := Run(st0, steps);
    hide Run, AllMessages;
    assert InitFirst(st, x) && Life(st.svcs[x]);
    Facts(st, w, x);
    hide Sum, Times;
    forall w' | 0 <= w' < |st.ws| && w' != w ensures !Serves(st.ws[w'], x) {
      OneHolder(st, w, w', x);
    }
  }

  /** The thread has given up its own reference to the context `x` and is still about to write to
      it or to read it: the creator of a service, told by the release that others keep it alive, and
      then the caller that it returns the context to. */
  predicate Unreferenced(pc: Pc, x: nat) { pc == Started(x, true) || pc == Reports(x) || pc == Launched(x) }

  /** The memory of a context is freed exactly when its handle is retired, everyone has given up his
      reference and the one who gave up the last has deleted it. */
  predicate GivenUp(st: State, x: nat)
    requires x < |st.svcs|
  {
    !st.svcs[x].registered && Sum(st.ws, Ref, x) == 0 && Sum(st.ws, Delete, x) == 0
  }

  /** Whoever has a queue, a reference or the deletion of a context finds it not freed, and a context
      is deleted by one thread only, before its queue is freed. The creator, who goes on using the
      context without a reference, finds it not freed unless all others have given it up. */
  lemma NoUseAfterFree(st0: State, steps: seq<(nat, Choice)>, w: nat, x: nat)
    requires Initial(st0) && w < |Run(st0, steps).ws| && x < |Run(st0, steps).svcs|
    ensures var st := Run(st0, steps); var pc := st.ws[w];
      && (Has(pc, Queue, x) + Has(pc, Ref, x) + Has(pc, Delete, x) > 0 ==> !st.svcs[x].freed)
      && (Has(pc, Ref, x) + Has(pc, Delete, x) > 0 ==> !st.svcs[x].release)
      && (Has(pc, Delete, x) > 0 ==> st.svcs[x].refs == 0 && Sum(st.ws, Delete, x) == 1)
      && (st.svcs[x].freed ==> st.svcs[x].release && st.svcs[x].refs == 0)
      && (Unreferenced(pc, x) ==> (st.svcs[x].release <==> GivenUp(st, x)))
  {
    Reachable(st0, steps);
    var st := Run(st0, steps);
    hide Run, AllInit, AllMessages;
    assert Life(st.svcs[x]) && Balanced(st, x);
    Facts(st, w, x);
  }

  const TwoThreads: State := State([], [], [Idle, Idle])

  /** The first thread starts a service; before it writes `init`, the second retires the handle and,
      now holding the last reference, deletes the context. */
  const TooLate: seq<(nat, Choice)> := [(0, New), (0, Step), (0, Step), (1, Retire(0)), (1, Step), (1, Step)]

  /** The states of this run. */
  function LateState(n: nat): State {
    var v := NewService();
    var kept := v.(refs := 1);
    var last := v.(refs := 0, registered := false);
    match n
    case 0 => TwoThreads
    case 1 => State([v], [], [Starts(0), Idle])
    case 2 => State([v], [], [Release(0, Started(0, true)), Idle])
    case 3 => State([kept], [], [Started(0, true), Idle])
    case 4 => State([kept.(registered := false)], [], [Started(0, true), Release(0, Idle)])
    case 5 => State([last], [], [Started(0, true), Deletes(0, Idle)])
    case _ => State([last.(release := true)], [], [Started(0, true), Idle])
  }

  lemma LateStep(n: nat)
    requires n < 6
    ensures Go(LateState(n), TooLate[n].0, TooLate[n].1) == LateState(n + 1)
  {
  }

  lemma {:induction false} LateRun(n: nat)
    requires n <= 6
    ensures Run(LateState(n), TooLate[n..]) == LateState(6)
    decreases 6 - n
  {
    hide Go, LateState;
    if n < 6 {
      LateStep(n);
      LateRun(n + 1);
    }
  }

  /** The creator does come too late in some run: its next step writes to a deleted context. */
  lemma CreatorTooLate()
    ensures Initial(TwoThreads)
    ensures var st := Run(TwoThreads, TooLate);
      && |st.ws| == 2 && |st.svcs| == 1
      && Unreferenced(st.ws[0], 0) && st.svcs[0].release && st.svcs[0].refs == 0
  {
    hide Run;
    LateRun(0);
    assert TooLate[0..] == TooLate;
  }

  /** Dispatched messages, then dropped ones, are the accepted ones in order: all of them once the
      queue is freed, and dropping starts only after the release. */
  lemma EachMessageOnce(st0: State, steps: seq<(nat, Choice)>, x: nat)
    requires Initial(st0) && x < |Run(st0, steps).svcs|
    ensures var v := Run(st0, steps).svcs[x];
      && v.dispatched + v.dropped <= v.accepted
      && (v.dropped != [] ==> v.release)
      && (v.freed ==> v.accepted == v.dispatched + v.dropped)
  {
    Reachable(st0, steps);
    var st := Run(st0, steps);
    hide Run, AllInit, Sum, Times;
    var v := st.svcs[x];
    assert Messages(st, x) && Life(v) && Balanced(st, x);
    if Sum(st.ws, Message, x) > 0 {
      FlyingThread(st.ws, x);
      var w :| 0 <= w < |st.ws| && Flies(st.ws[w], x);
      Facts(st, w, x);
      assert v.dispatched + v.dropped == v.dispatched;
      assert v.accepted == v.dispatched + ([st.ws[w].m] + v.queue);
    } else {
      assert v.accepted == (v.dispatched + v.dropped) + v.queue;
    }
  }

  lemma {:induction false} FlyingThread(ws: seq<Pc>, x: nat)
    requires Sum(ws, Message, x) > 0
    ensures exists w :: 0 <= w < |ws| && Flies(ws[w], x)
  {
    FlightHas(ws[0], x);
    if !Flies(ws[0], x) {
      FlyingThread(ws[1..], x);
      var w :| 0 <= w < |ws[1..]| && Flies(ws[1..][w], x);
      assert ws[w + 1] == ws[1..][w];
    }
  }

  /** When all threads rest and the global list is empty, no message waits in a live queue. */
  lemma NothingStranded(st0: State, steps: seq<(nat, Choice)>, x: nat)
    requires Initial(st0) && x < |Run(st0, steps).svcs|
    requires Run(st0, steps).global == [] && forall w :: 0 <= w < |Run(st0, steps).ws| ==> Run(st0, steps).ws[w].Idle?
    ensures var v := Run(st0, steps).svcs[x]; v.accepted == v.dispatched + v.dropped && v.refs == B(v.registered)
  {
    Reachable(st0, steps);
    var st := Run(st0, steps);
    hide Run, AllInit;
    assert Messages(st, x) && Life(st.svcs[x]) && Balanced(st, x);
    SumZero(st.ws, Queue, x);
    SumZero(st.ws, Ref, x);
    SumZero(st.ws, Message, x);
  }

  /** Freeing is final: no later step touches the queue or its log again. */
  lemma {:induction false} FreedOnce(st: State, steps: seq<(nat, Choice)>, x: nat)
    requires Sure(st) && x < |st.svcs| && st.svcs[x].freed
    ensures x < |Run(st, steps).svcs| && Run(st, steps).svcs[x] == st.svcs[x]
    decreases |steps|
  {
    if steps != [] {
      var (w, c) := steps[0];
      RunSure(st, [steps[0]]);
      assert Run(st, [steps[0]]) == Run(Go(st, w, c), []);
      FreedStays(st, w, c, x);
      hide Go, Inv, AllInit, AllMessages;
      FreedOnce(Go(st, w, c), steps[1..], x);
    }
  }

  lemma FreedHolder(st: State, w: nat, c: Choice, x: nat)
    requires Sound(st, w, x) && st.svcs[x].freed && Has(st.ws[w], Queue, x) == 0
    ensures Holder(st, w, c).svcs == st.svcs || (x < |Holder(st, w, c).svcs| && Holder(st, w, c).svcs[x] == st.svcs[x])
  {
    hide Shift, Life, Places;
  }

  lemma FreedOwner(st: State, w: nat, c: Choice, x: nat)
    requires Sound(st, w, x) && st.svcs[x].freed
    requires Has(st.ws[w], Queue, x) == 0 && Has(st.ws[w], Ref, x) == 0 && Has(st.ws[w], Delete, x) == 0
    ensures x < |Owner(st, w, c).svcs| && Owner(st, w, c).svcs[x] == st.svcs[x]
  {
    hide Life, Places;
  }

  lemma FreedStays(st: State, w: nat, c: Choice, x: nat)
    requires Sure(st) && x < |st.svcs| && st.svcs[x].freed
    ensures x < |Go(st, w, c).svcs| && Go(st, w, c).svcs[x] == st.svcs[x]
  {
    hide AllInit, AllMessages, AllBalanced, AllLive, Named, DropsReleased, Holder, Owner, Sound, Has, Known;
    if w < |st.ws| && Known(|st.svcs|, st.ws[w]) {
      IsSound(st, w, x);
      Untouchable(st, w, x);
      FreedHolder(st, w, c, x);
      FreedOwner(st, w, c, x);
    }
  }

  lemma Untouchable(st: State, w: nat, x: nat)
    requires Sound(st, w, x) && st.svcs[x].freed
    ensures Has(st.ws[w], Queue, x) == 0 && Has(st.ws[w], Ref, x) == 0 && Has(st.ws[w], Delete, x) == 0
    ensures !st.svcs[x].registered
  {
  }
}
