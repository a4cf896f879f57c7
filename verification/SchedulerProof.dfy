/**
 * Each live message queue is in exactly one place, contexts are deleted once, and no message is lost,
 * duplicated or reordered: invariants of every interleaving.
 */
module SchedulerProof {
  import opened Scheduler

  // ---- who holds what

  datatype Hold = Queue | Ref | Delete | Message

  function B(b: bool): nat { if b then 1 else 0 }

  /** How many queues `x`, references to `x`, deletions of `x` or popped messages of `x` a thread has. */
  function Own(pc: Pc, h: Hold, x: nat): nat {
    match pc
    case Idle => 0
    case Starts(s) => if h.Queue? || h.Ref? then B(s == x) else 0
    case Started(s, _) => if h.Queue? then B(s == x) else 0
    case Failed(s) => if h.Queue? then B(s == x) else 0
    case Holds(s) => if h.Queue? then B(s == x) else 0
    case Lost(s) => if h.Queue? then B(s == x) else 0
    case Drops(s) => if h.Queue? then B(s == x) else 0
    case Runs(s, _, _) => if h.Queue? || h.Ref? then B(s == x) else 0
    case Sizes(s, _, _) => if h.Delete? then 0 else B(s == x)
    case Calls(s, _, _, _) => if h.Delete? then 0 else B(s == x)
    case Next(s) => if h.Queue? || h.Ref? then B(s == x) else 0
    case Back(s, q) => if h.Queue? then B(s == x) + B(q == x) else if h.Ref? then B(s == x) else 0
    case Refs(s) => if h.Ref? then B(s == x) else 0
    case _ => 0
  }

  function Has(pc: Pc, h: Hold, x: nat): nat {
    match pc
    case Release(s, after) => (if h.Ref? then B(s == x) else 0) + if h.Message? then 0 else Own(after, h, x)
    case Deletes(s, after) => (if h.Delete? then B(s == x) else 0) + if h.Message? then 0 else Own(after, h, x)
    case _ => Own(pc, h, x)
  }

  function Sum(ws: seq<Pc>, h: Hold, x: nat): nat {
    if ws == [] then 0 else Has(ws[0], h, x) + Sum(ws[1..], h, x)
  }

  function Times(global: seq<nat>, x: nat): nat {
    if global == [] then 0 else B(global[0] == x) + Times(global[1..], x)
  }

  lemma {:induction false} SumSet(ws: seq<Pc>, w: nat, pc: Pc, h: Hold, x: nat)
    requires w < |ws|
    ensures Sum(ws[w := pc], h, x) == Sum(ws, h, x) - Has(ws[w], h, x) + Has(pc, h, x)
  {
    hide Has;
    if w > 0 {
      assert ws[w := pc][1..] == ws[1..][w - 1 := pc];
      SumSet(ws[1..], w - 1, pc, h, x);
    } else {
      assert ws[0 := pc][1..] == ws[1..];
    }
  }

  lemma {:induction false} SumMember(ws: seq<Pc>, w: nat, h: Hold, x: nat)
    requires w < |ws|
    ensures Has(ws[w], h, x) <= Sum(ws, h, x)
  {
    hide Has;
    if w > 0 { SumMember(ws[1..], w - 1, h, x); }
  }

  lemma {:induction false} SumTwo(ws: seq<Pc>, w: nat, w': nat, h: Hold, x: nat)
    requires w < w' < |ws|
    ensures Has(ws[w], h, x) + Has(ws[w'], h, x) <= Sum(ws, h, x)
  {
    hide Has;
    if w > 0 { SumTwo(ws[1..], w - 1, w' - 1, h, x); } else { SumMember(ws[1..], w' - 1, h, x); }
  }

  lemma {:induction false} SumZero(ws: seq<Pc>, h: Hold, x: nat)
    requires forall w :: 0 <= w < |ws| ==> Has(ws[w], h, x) == 0
    ensures Sum(ws, h, x) == 0
  {
    hide Has;
    if ws != [] { SumZero(ws[1..], h, x); }
  }

  lemma {:induction false} TimesPush(global: seq<nat>, s: nat, x: nat)
    ensures Times(global + [s], x) == Times(global, x) + B(s == x)
  {
    if global == [] {
      assert global + [s] == [s];
    } else {
      assert (global + [s])[1..] == global[1..] + [s];
      TimesPush(global[1..], s, x);
    }
  }

  lemma {:induction false} TimesZero(global: seq<nat>, x: nat)
    requires forall k :: 0 <= k < |global| ==> global[k] != x
    ensures Times(global, x) == 0
  {
    if global != [] { TimesZero(global[1..], x); }
  }

  // ---- the invariant

  /** `after` of a release or a deletion is a plain state that owns no reference. */
  predicate Plain(pc: Pc) {
    match pc
    case Release(s, after) => after.Idle? || (after.Started? && after.s == s) || after.Failed? || after.Holds? || after.Lost?
    case Deletes(s, after) => after.Idle? || (after.Started? && after.s == s) || after.Failed? || after.Holds? || after.Lost?
    case _ => true
  }

  predicate Named(st: State) {
    && (forall w :: 0 <= w < |st.ws| ==> Known(|st.svcs|, st.ws[w]) && Plain(st.ws[w]))
    && (forall k :: 0 <= k < |st.global| ==> st.global[k] < |st.svcs|)
  }

  /** Where the queue must be: with its creator, in the global list or with one worker. */
  function Places(v: Service): nat { B(!v.freed && (v.inGlobal || v.release)) }

  predicate Counts(v: Service, places: nat, refs: nat, deletes: nat) {
    && places == Places(v)
    && v.refs == B(v.registered) + refs
    && deletes == B(v.refs == 0 && !v.release)
  }

  predicate Balanced(st: State, x: nat)
    requires x < |st.svcs|
  {
    Counts(st.svcs[x], Times(st.global, x) + Sum(st.ws, Queue, x), Sum(st.ws, Ref, x), Sum(st.ws, Delete, x))
  }

  predicate Life(v: Service) {
    && (v.release ==> v.refs == 0)
    && (v.freed ==> v.release && v.queue == [])
    && (v.queue != [] ==> v.inGlobal || v.release)
    && (v.dropped != [] ==> v.release)
  }

  predicate AllBalanced(st: State) {
    forall x :: 0 <= x < |st.svcs| ==> Balanced(st, x)
  }

  predicate AllLive(st: State) {
    forall x :: 0 <= x < |st.svcs| ==> Life(st.svcs[x])
  }

  lemma NoStranger(st: State, h: Hold, x: nat)
    requires Named(st) && x >= |st.svcs|
    ensures Times(st.global, x) == 0 && Sum(st.ws, h, x) == 0
  {
    TimesZero(st.global, x);
    SumZero(st.ws, h, x);
  }

  lemma NamedFrame(st: State, st': State, w: nat)
    requires Named(st) && w < |st.ws| == |st'.ws| && st'.ws == st.ws[w := st'.ws[w]]
    requires |st.svcs| <= |st'.svcs| && Known(|st'.svcs|, st'.ws[w]) && Plain(st'.ws[w])
    requires forall k :: 0 <= k < |st'.global| ==> st'.global[k] < |st'.svcs|
    ensures Named(st')
  {
    forall v | 0 <= v < |st'.ws| ensures Known(|st'.svcs|, st'.ws[v]) && Plain(st'.ws[v]) {
      assert Known(|st.svcs|, st.ws[v]) && Plain(st.ws[v]);
    }
  }

  lemma NamedHolder(st: State, w: nat, c: Choice)
    requires Named(st) && w < |st.ws|
    ensures Named(Holder(st, w, c))
  {
    var st' := Holder(st, w, c);
    assert Known(|st.svcs|, st.ws[w]) && Plain(st.ws[w]);
    NamedFrame(st, st', w);
  }

  lemma NamedOwner(st: State, w: nat, c: Choice)
    requires Named(st) && w < |st.ws|
    ensures Named(Owner(st, w, c))
  {
    var st' := Owner(st, w, c);
    assert Known(|st.svcs|, st.ws[w]) && Plain(st.ws[w]);
    NamedFrame(st, st', w);
  }

  lemma NamedIdle(st: State, w: nat, c: Choice)
    requires Named(st) && w < |st.ws| && st.ws[w].Idle?
    ensures Named(FromIdle(st, w, c))
  {
    NamedFrame(st, FromIdle(st, w, c), w);
  }

  lemma NamedKept(st: State, w: nat, c: Choice)
    requires Named(st)
    ensures Named(Go(st, w, c))
  {
    hide Named, Holder, Owner, FromIdle;
    if w < |st.ws| && Known(|st.svcs|, st.ws[w]) {
      NamedHolder(st, w, c);
      NamedOwner(st, w, c);
      if st.ws[w].Idle? { NamedIdle(st, w, c); }
    }
  }

  // ---- every queue in one place

  /** Effect of a step on one thread, the global list and one service. */
  lemma Recount(st: State, st': State, w: nat, x: nat)
    requires w < |st.ws| == |st'.ws| && st'.ws == st.ws[w := st'.ws[w]]
    ensures forall h :: Sum(st'.ws, h, x) == Sum(st.ws, h, x) - Has(st.ws[w], h, x) + Has(st'.ws[w], h, x)
    ensures forall h :: Has(st.ws[w], h, x) <= Sum(st.ws, h, x)
  {
    hide Has, Sum;
    forall h ensures Sum(st'.ws, h, x) == Sum(st.ws, h, x) - Has(st.ws[w], h, x) + Has(st'.ws[w], h, x)
      ensures Has(st.ws[w], h, x) <= Sum(st.ws, h, x)
    {
      SumSet(st.ws, w, st'.ws[w], h, x);
      SumMember(st.ws, w, h, x);
    }
  }

  /** The step moves queue `x`, references and deletions without creating or losing any. */
  predicate Even(st: State, st': State, w: nat, x: nat) {
    && x < |st.svcs| && x < |st'.svcs| && w < |st.ws| && |st'.ws| == |st.ws| && st'.ws == st.ws[w := st'.ws[w]]
    && Times(st'.global, x) + Has(st'.ws[w], Queue, x) - Places(st'.svcs[x])
       == Times(st.global, x) + Has(st.ws[w], Queue, x) - Places(st.svcs[x])
    && st'.svcs[x].refs - B(st'.svcs[x].registered) - Has(st'.ws[w], Ref, x)
       == st.svcs[x].refs - B(st.svcs[x].registered) - Has(st.ws[w], Ref, x)
    && Has(st'.ws[w], Delete, x) - B(st'.svcs[x].refs == 0 && !st'.svcs[x].release)
       == Has(st.ws[w], Delete, x) - B(st.svcs[x].refs == 0 && !st.svcs[x].release)
  }

  lemma Balance(st: State, st': State, w: nat, x: nat)
    requires AllBalanced(st) && Even(st, st', w, x)
    ensures Balanced(st', x)
  {
    hide Has, Sum, Times;
    assert Balanced(st, x);
    Recount(st, st', w, x);
  }

  /** What the state says about the queue and the references of the acting thread. */
  predicate Sound(st: State, w: nat, x: nat) {
    && w < |st.ws| && Known(|st.svcs|, st.ws[w]) && Plain(st.ws[w]) && x < |st.svcs| && Life(st.svcs[x])
    && (Has(st.ws[w], Queue, x) > 0 ==> Places(st.svcs[x]) == 1)
    && (Has(st.ws[w], Ref, x) > 0 ==> st.svcs[x].refs > 0 && !st.svcs[x].release)
    && (Has(st.ws[w], Delete, x) > 0 ==> st.svcs[x].refs == 0 && !st.svcs[x].release)
    && (st.svcs[x].registered ==> st.svcs[x].refs > B(Has(st.ws[w], Ref, x) > 0))
  }

  lemma EvenQueue(st: State, w: nat, c: Choice, x: nat)
    requires Sound(st, w, x) && (st.ws[w].Holds? || st.ws[w].Lost?)
    ensures Even(st, Holder(st, w, c), w, x)
  {
    hide Times;
    TimesPush(st.global, st.ws[w].s, x);
  }

  /** A thread in `_drop_queue` finds the context gone. */
  predicate DropsReleased(st: State) {
    forall w :: 0 <= w < |st.ws| && st.ws[w].Drops? ==> st.ws[w].s < |st.svcs| && st.svcs[st.ws[w].s].release
  }

  lemma EvenDrop(st: State, w: nat, c: Choice, x: nat)
    requires Sound(st, w, x) && DropsReleased(st) && st.ws[w].Drops?
    ensures Even(st, Holder(st, w, c), w, x)
  {
    hide Times;
  }

  lemma EvenRun(st: State, w: nat, c: Choice, x: nat)
    requires Sound(st, w, x) && st.ws[w].Runs?
    ensures Even(st, Holder(st, w, c), w, x)
  {
    hide Times, Shift;
  }

  lemma EvenCall(st: State, w: nat, c: Choice, x: nat)
    requires Sound(st, w, x) && (st.ws[w].Sizes? || st.ws[w].Calls?)
    ensures Even(st, Holder(st, w, c), w, x)
  {
    hide Times, Shift;
  }

  lemma EvenNext(st: State, w: nat, c: Choice, x: nat)
    requires Sound(st, w, x) && st.ws[w].Next?
    ensures Even(st, Holder(st, w, c), w, x)
  {
    hide Times;
    if st.global != [] { TimesHead(st.global, x); }
  }

  lemma EvenBack(st: State, w: nat, c: Choice, x: nat)
    requires Sound(st, w, x) && st.ws[w].Back?
    ensures Even(st, Holder(st, w, c), w, x)
  {
    hide Times;
    TimesPush(st.global, st.ws[w].s, x);
  }

  lemma EvenContext(st: State, w: nat, c: Choice, x: nat)
    requires Sound(st, w, x) && (st.ws[w].Starts? || st.ws[w].Started? || st.ws[w].Reports? || st.ws[w].Launched? || st.ws[w].Failed?)
    ensures Even(st, Owner(st, w, c), w, x)
  {
    hide Times;
    TimesPush(st.global, st.ws[w].s, x);
  }

  lemma EvenRef(st: State, w: nat, c: Choice, x: nat)
    requires Sound(st, w, x) && st.ws[w].Refs?
    ensures Even(st, Owner(st, w, c), w, x)
  {
    hide Times;
    TimesPush(st.global, st.ws[w].s, x);
  }

  lemma EvenRelease(st: State, w: nat, c: Choice, x: nat)
    requires Sound(st, w, x) && (st.ws[w].Release? || st.ws[w].Deletes?)
    ensures Even(st, Owner(st, w, c), w, x)
  {
    hide Times;
    TimesPush(st.global, st.ws[w].s, x);
  }

  lemma EvenIdle(st: State, w: nat, c: Choice, x: nat)
    requires Sound(st, w, x) && st.ws[w].Idle?
    ensures Even(st, FromIdle(st, w, c), w, x)
  {
    hide Times;
    if st.global != [] { TimesHead(st.global, x); }
  }

  lemma TimesHead(global: seq<nat>, x: nat)
    requires global != []
    ensures Times(global, x) == B(global[0] == x) + Times(global[1..], x)
  {
  }

  lemma Facts(st: State, w: nat, x: nat)
    requires AllBalanced(st) && w < |st.ws| && x < |st.svcs|
    ensures Has(st.ws[w], Queue, x) > 0 ==> Places(st.svcs[x]) == 1
    ensures Has(st.ws[w], Ref, x) > 0 ==> st.svcs[x].refs > 0
    ensures st.svcs[x].registered ==> st.svcs[x].refs > B(Has(st.ws[w], Ref, x) > 0)
    ensures Has(st.ws[w], Delete, x) > 0 ==> st.svcs[x].refs == 0 && !st.svcs[x].release
  {
    hide Has, Sum, Times;
    assert Balanced(st, x);
    SumMember(st.ws, w, Queue, x);
    SumMember(st.ws, w, Ref, x);
    SumMember(st.ws, w, Delete, x);
  }

  lemma IsSound(st: State, w: nat, x: nat)
    requires Named(st) && AllBalanced(st) && AllLive(st) && w < |st.ws| && x < |st.svcs|
    ensures Sound(st, w, x)
  {
    hide Has, Sum, Times;
    Facts(st, w, x);
    assert Balanced(st, x) && Life(st.svcs[x]);
  }

  lemma SoundKnows(st: State, w: nat, x: nat)
    requires Sound(st, w, x)
    ensures w < |st.ws| && x < |st.svcs| && Known(|st.svcs|, st.ws[w])
    ensures st.svcs[x].registered ==> st.svcs[x].refs > 0
    ensures st.ws[w].Runs? && st.ws[w].s == x ==> st.svcs[x].dropped == []
  {
  }

  lemma NoSuchThread(st: State, w: nat, c: Choice)
    requires w >= |st.ws|
    ensures Go(st, w, c) == st
  {
  }

  lemma KeepsServices(st: State, w: nat, c: Choice)
    requires w < |st.ws| && Known(|st.svcs|, st.ws[w])
    ensures |Holder(st, w, c).svcs| == |st.svcs| && |Owner(st, w, c).svcs| == |st.svcs|
  {
  }

  lemma EvenKept(st: State, w: nat, c: Choice, x: nat)
    requires Sound(st, w, x) && DropsReleased(st)
    ensures Even(st, Go(st, w, c), w, x)
  {
    hide Even, Sound, Holder, Owner, FromIdle, DropsReleased;
    SoundKnows(st, w, x);
    match st.ws[w]
    case Idle => EvenIdle(st, w, c, x);
    case Holds(_) => EvenQueue(st, w, c, x);
    case Lost(_) => EvenQueue(st, w, c, x);
    case Drops(_) => EvenDrop(st, w, c, x);
    case Runs(_, _, _) => EvenRun(st, w, c, x);
    case Sizes(_, _, _) => EvenCall(st, w, c, x);
    case Calls(_, _, _, _) => EvenCall(st, w, c, x);
    case Next(_) => EvenNext(st, w, c, x);
    case Back(_, _) => EvenBack(st, w, c, x);
    case Starts(_) => EvenContext(st, w, c, x);
    case Started(_, _) => EvenContext(st, w, c, x);
    case Reports(_) => EvenContext(st, w, c, x);
    case Launched(_) => EvenContext(st, w, c, x);
    case Failed(_) => EvenContext(st, w, c, x);
    case Refs(_) => EvenRef(st, w, c, x);
    case Release(_, _) => EvenRelease(st, w, c, x);
    case Deletes(_, _) => EvenRelease(st, w, c, x);
  }

  lemma BalancedNew(st: State, w: nat, c: Choice)
    requires Named(st) && w < |st.ws| && st.ws[w].Idle? && c.New?
    ensures Balanced(Go(st, w, c), |st.svcs|)
  {
    var st' := Go(st, w, c);
    hide Sum, Times;
    Recount(st, st', w, |st.svcs|);
    NoStranger(st, Queue, |st.svcs|);
    NoStranger(st, Ref, |st.svcs|);
    NoStranger(st, Delete, |st.svcs|);
  }

  /** Services come only from `skynet_context_new`. */
  lemma Grows(st: State, w: nat, c: Choice)
    ensures w < |st.ws| && st.ws[w].Idle? && c.New? ==> |Go(st, w, c).svcs| == |st.svcs| + 1
    ensures !(w < |st.ws| && st.ws[w].Idle? && c.New?) ==> |Go(st, w, c).svcs| == |st.svcs|
  {
    hide Shift;
  }

  lemma BalancedKept(st: State, w: nat, c: Choice)
    requires Named(st) && AllBalanced(st) && AllLive(st) && DropsReleased(st)
    ensures AllBalanced(Go(st, w, c))
  {
    hide Sum, Times, Balanced, Even, Holder, Owner, FromIdle, DropsReleased, Named, AllLive, Go, Sound;
    var st' := Go(st, w, c);
    Grows(st, w, c);
    if w < |st.ws| {
      forall x | 0 <= x < |st'.svcs| ensures Balanced(st', x) {
        if x < |st.svcs| {
          IsSound(st, w, x);
          EvenKept(st, w, c, x);
          Balance(st, st', w, x);
        } else {
          BalancedNew(st, w, c);
        }
      }
    } else {
      NoSuchThread(st, w, c);
    }
  }

  // ---- life of a service

  lemma LifeHolder(st: State, w: nat, c: Choice, x: nat)
    requires Sound(st, w, x) && DropsReleased(st)
    ensures Life(Holder(st, w, c).svcs[x])
  {
    hide Shift;
  }

  lemma LifeOwner(st: State, w: nat, c: Choice, x: nat)
    requires Sound(st, w, x)
    ensures Life(Owner(st, w, c).svcs[x])
  {
  }

  lemma LifeIdle(st: State, w: nat, c: Choice, x: nat)
    requires Sound(st, w, x)
    ensures x < |FromIdle(st, w, c).svcs| && Life(FromIdle(st, w, c).svcs[x])
  {
  }

  lemma LifeNew(st: State, w: nat, c: Choice, x: nat)
    requires AllLive(st) && x < |Go(st, w, c).svcs| && (x >= |st.svcs| || w >= |st.ws|)
    ensures Life(Go(st, w, c).svcs[x])
  {
    hide Holder, Owner;
    if w < |st.ws| && Known(|st.svcs|, st.ws[w]) { KeepsServices(st, w, c); }
  }

  lemma LifeKept(st: State, w: nat, c: Choice)
    requires Named(st) && AllBalanced(st) && AllLive(st) && DropsReleased(st)
    ensures AllLive(Go(st, w, c))
  {
    hide Sum, Times, AllBalanced, Named, Holder, Owner, DropsReleased, Sound;
    var st' := Go(st, w, c);
    forall x | 0 <= x < |st'.svcs| ensures Life(st'.svcs[x]) {
      if x < |st.svcs| && w < |st.ws| {
        IsSound(st, w, x);
        SoundKnows(st, w, x);
        KeepsServices(st, w, c);
        LifeHolder(st, w, c, x);
        LifeOwner(st, w, c, x);
        LifeIdle(st, w, c, x);
      } else {
        LifeNew(st, w, c, x);
      }
    }
  }
}
