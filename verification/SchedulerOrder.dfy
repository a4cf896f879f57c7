/**
 * The order in which queues leave the global list, and how long a turn may last: seen from outside,
 * by how the list and the log of a service differ before and after a step.
 */
module SchedulerOrder {
  import opened Scheduler
  import opened SchedulerProof
  import opened SchedulerSafety

  // ---- the global list is served in the order of arrival

  predicate Takes(a: seq<nat>, b: seq<nat>) { a != [] && b == a[1..] }

  predicate Adds(a: seq<nat>, b: seq<nat>) { |b| == |a| + 1 && b[..|a|] == a }

  /** Whether the thread goes on with the queue `q`. */
  predicate Gets(pc: Pc, q: nat) { pc == Holds(q) || (pc.Back? && pc.q == q) }

  lemma ListHolder(st: State, w: nat, c: Choice)
    requires w < |st.ws| && Known(|st.svcs|, st.ws[w])
    ensures var st' := Holder(st, w, c);
      && (st'.global == st.global || Takes(st.global, st'.global) || Adds(st.global, st'.global))
      && |st'.ws| == |st.ws|
      && (Takes(st.global, st'.global) ==> st'.ws == st.ws[w := st'.ws[w]] && Gets(st'.ws[w], st.global[0]))
      && (Adds(st.global, st'.global) ==> Has(st.ws[w], Queue, st'.global[|st.global|]) > 0)
  {
    hide Shift;
  }

  lemma ListOwner(st: State, w: nat, c: Choice)
    requires w < |st.ws| && Known(|st.svcs|, st.ws[w])
    ensures var st' := Owner(st, w, c);
      && (st'.global == st.global || Adds(st.global, st'.global))
      && (Adds(st.global, st'.global) ==>
            var q := st'.global[|st.global|];
            Has(st.ws[w], Queue, q) > 0 || (q < |st.svcs| && !st.svcs[q].inGlobal))
  {
  }

  /** A step leaves the list, takes its first queue, which the acting thread gets, or adds one queue
      at its end: one that the thread had, or one that nobody was due to serve. */
  lemma ListMoves(st: State, w: nat, c: Choice)
    ensures var st' := Go(st, w, c);
      && (st'.global == st.global || Takes(st.global, st'.global) || Adds(st.global, st'.global))
      && (Takes(st.global, st'.global) ==>
            && w < |st.ws| && |st'.ws| == |st.ws| && st'.ws == st.ws[w := st'.ws[w]]
            && Gets(st'.ws[w], st.global[0]))
      && (Adds(st.global, st'.global) ==>
            var q := st'.global[|st.global|];
            && w < |st.ws|
            && (Has(st.ws[w], Queue, q) > 0 || (q < |st.svcs| && !st.svcs[q].inGlobal)))
  {
    hide Holder, Owner, Has;
    if w < |st.ws| && Known(|st.svcs|, st.ws[w]) {
      hide Known;
      ListHolder(st, w, c);
      ListOwner(st, w, c);
    }
  }

  /** The queues that leave the list in a run, in order. */
  function Taken(st: State, steps: seq<(nat, Choice)>): seq<nat>
    decreases |steps|
  {
    if steps == [] then []
    else
      var st' := Go(st, steps[0].0, steps[0].1);
      (if |st'.global| < |st.global| then [st.global[0]] else []) + Taken(st', steps[1..])
  }

  /** The queues that come to its end, in order. */
  function Added(st: State, steps: seq<(nat, Choice)>): seq<nat>
    decreases |steps|
  {
    if steps == [] then []
    else
      var st' := Go(st, steps[0].0, steps[0].1);
      (if |st'.global| > |st.global| then [st'.global[|st'.global| - 1]] else []) + Added(st', steps[1..])
  }

  /** The queues taken, and then those that wait, are those that waited and then those added. */
  lemma {:induction false} ListKept(st: State, steps: seq<(nat, Choice)>)
    ensures Taken(st, steps) + Run(st, steps).global == st.global + Added(st, steps)
    decreases |steps|
  {
    hide Go, Has;
    if steps != [] {
      var (w, c) := steps[0];
      var st' := Go(st, w, c);
      ListMoves(st, w, c);
      ListKept(st', steps[1..]);
      var taken, added, rest := Taken(st', steps[1..]), Added(st', steps[1..]), Run(st, steps).global;
      assert taken + rest == st'.global + added;
      if Takes(st.global, st'.global) {
        assert st.global == [st.global[0]] + st'.global;
        assert [st.global[0]] + taken + rest == [st.global[0]] + (st'.global + added);
        assert [] + added == added;
      } else if Adds(st.global, st'.global) {
        var q := st'.global[|st.global|];
        assert st'.global == st.global + [q];
        assert st.global + ([q] + added) == st'.global + added;
        assert [] + taken == taken;
      } else {
        assert [] + taken == taken && [] + added == added;
      }
    }
  }

  /** In every interleaving the queue at place `k` of the list, counting on with those added, is taken
      by exactly the take number `k`, from 0; until then all that is before it, and nothing else, has been
      taken, and it has moved up by as many places. */
  lemma NothingOvertakes(st: State, steps: seq<(nat, Choice)>, k: nat)
    requires k < |st.global| + |Added(st, steps)|
    ensures var q := (st.global + Added(st, steps))[k]; var n := |Taken(st, steps)|;
      if k < n then Taken(st, steps)[k] == q
      else var place := k - n; place < |Run(st, steps).global| && Run(st, steps).global[place] == q
  {
    hide Run, Taken, Added;
    ListKept(st, steps);
    var all := Taken(st, steps) + Run(st, steps).global;
    assert all[k] == (st.global + Added(st, steps))[k];
  }

  /** The take number `k` happens at one step, and the thread of that step gets the queue. */
  lemma {:induction false} TakenBy(st: State, steps: seq<(nat, Choice)>, k: nat)
    requires k < |Taken(st, steps)|
    ensures exists i :: 0 <= i < |steps| && TakesAt(st, steps, k, i)
    decreases |steps|
  {
    hide Go, Has, Gets;
    var (w, c) := steps[0];
    var st' := Go(st, w, c);
    ListMoves(st, w, c);
    if |st'.global| < |st.global| && k == 0 {
      assert steps[..0] == [];
      assert TakesAt(st, steps, k, 0);
    } else {
      var k' := if |st'.global| < |st.global| then k - 1 else k;
      TakenBy(st', steps[1..], k');
      var i :| 0 <= i < |steps[1..]| && TakesAt(st', steps[1..], k', i);
      TakesLater(st, steps, k, k', i);
    }
  }

  lemma TakesLater(st: State, steps: seq<(nat, Choice)>, k: nat, k': nat, i: nat)
    requires steps != [] && i < |steps[1..]|
    requires var st' := Go(st, steps[0].0, steps[0].1);
      && k == k' + (if |st'.global| < |st.global| then 1 else 0)
      && TakesAt(st', steps[1..], k', i)
    ensures i + 1 < |steps| && TakesAt(st, steps, k, i + 1)
  {
    hide Go, Gets, Takes;
    Shifted(steps, i);
    var st' := Go(st, steps[0].0, steps[0].1);
    assert Run(st, steps[..i + 1]) == Run(st', steps[1..][..i]);
    assert Taken(st, steps[..i + 1]) == (if |st'.global| < |st.global| then [st.global[0]] else []) + Taken(st', steps[1..][..i]);
  }

  lemma Shifted(steps: seq<(nat, Choice)>, i: nat)
    requires steps != [] && i < |steps[1..]|
    ensures steps[..i + 1][0] == steps[0] && steps[..i + 1][1..] == steps[1..][..i] && steps[1..][i] == steps[i + 1]
  {
    assert steps[..i + 1][0] == steps[0] && steps[..i + 1][1..] == steps[1..][..i];
    assert steps[1..][i] == steps[i + 1];
  }

  /** Step `i` is the take number `k`. */
  predicate TakesAt(st: State, steps: seq<(nat, Choice)>, k: nat, i: nat)
    requires i < |steps|
  {
    var before := Run(st, steps[..i]);
    var (w, c) := steps[i];
    var after := Go(before, w, c);
    && |Taken(st, steps[..i])| == k && k < |Taken(st, steps)|
    && Takes(before.global, after.global) && before.global[0] == Taken(st, steps)[k]
    && w < |after.ws| && Gets(after.ws[w], Taken(st, steps)[k])
  }

  // ---- the length of a turn

  function Power2(k: nat): nat { if k == 0 then 1 else 2 * Power2(k - 1) }

  lemma ShiftIs(n: nat, k: nat)
    ensures Power2(k) > 0 && Shift(n, k) == n / Power2(k)
  {
    hide Shift, Power2;
    ShiftBetween(n, k);
    var q, p := Shift(n, k), Power2(k);
    Divided(n, p);
    SameQuotient(q, n / p, p, n - q * p, n % p);
  }

  lemma Divided(n: nat, p: nat)
    requires p > 0
    ensures n == (n / p) * p + n % p && n % p < p
  {
  }

  lemma {:induction false} ShiftBetween(n: nat, k: nat)
    ensures Shift(n, k) * Power2(k) <= n < Shift(n, k) * Power2(k) + Power2(k)
    decreases k
  {
    if k > 0 {
      ShiftBetween(n / 2, k - 1);
      Doubled(Shift(n / 2, k - 1), Power2(k - 1));
    }
  }

  lemma Doubled(q: nat, p: nat)
    ensures q * (2 * p) == 2 * (q * p)
  {
  }

  lemma SameQuotient(q: nat, q': nat, d: nat, r: nat, r': nat)
    requires q * d + r == q' * d + r' && r < d && r' < d
    ensures q == q'
  {
    if q < q' { AtLeast(q' - q, d); } else if q > q' { AtLeast(q - q', d); }
  }

  lemma AtLeast(k: nat, d: nat)
    requires k > 0
    ensures k * d >= d
  {
  }

  /** How many messages of the service `s` the thread `w` dispatches while it serves it on. */
  function Served(st: State, steps: seq<(nat, Choice)>, w: nat, s: nat): nat
    decreases |steps|
  {
    if steps == [] || w >= |st.ws| || !Serves(st.ws[w], s) then 0
    else
      var st' := Go(st, steps[0].0, steps[0].1);
      (if steps[0].0 == w then Logs(st, st', s) else 0) + Served(st', steps[1..], w, s)
  }

  /** By how many messages the log of what was dispatched grows. */
  function Logs(st: State, st': State, s: nat): nat {
    if s < |st.svcs| && s < |st'.svcs| && |st'.svcs[s].dispatched| > |st.svcs[s].dispatched| then
      |st'.svcs[s].dispatched| - |st.svcs[s].dispatched|
    else 0
  }

  /** How many messages the thread may still dispatch in this turn. */
  function Room(pc: Pc): nat {
    match pc
    case Runs(_, i, n) => if i < n then n - i else 0
    case Calls(_, _, i, n) => if i + 1 < n then n - i else 1
    case _ => 0
  }

  lemma OtherHolder(st: State, v: nat, c: Choice, w: nat)
    requires v != w && w < |st.ws| && v < |st.ws| && Known(|st.svcs|, st.ws[v])
    ensures var st' := Holder(st, v, c); w < |st'.ws| && st'.ws[w] == st.ws[w] && |st.svcs| <= |st'.svcs|
  {
    hide Shift;
  }

  lemma OtherOwner(st: State, v: nat, c: Choice, w: nat)
    requires v != w && w < |st.ws| && v < |st.ws| && Known(|st.svcs|, st.ws[v])
    ensures var st' := Owner(st, v, c); w < |st'.ws| && st'.ws[w] == st.ws[w] && |st.svcs| <= |st'.svcs|
  {
  }

  lemma OtherStep(st: State, v: nat, c: Choice, w: nat)
    requires v != w && w < |st.ws|
    ensures var st' := Go(st, v, c); w < |st'.ws| && st'.ws[w] == st.ws[w] && |st.svcs| <= |st'.svcs|
  {
    hide Holder, Owner, Known;
    if v < |st.ws| && Known(|st.svcs|, st.ws[v]) {
      OtherHolder(st, v, c, w);
      OtherOwner(st, v, c, w);
    }
  }

  /** In the loop of a turn, past the first message or about to dispatch it. */
  predicate InTurn(st: State, w: nat, s: nat) {
    && w < |st.ws| && s < |st.svcs| && (st.ws[w].Runs? || st.ws[w].Calls?) && st.ws[w].s == s
    && (st.ws[w].Runs? ==> 0 < st.ws[w].i < st.ws[w].n)
  }

  lemma OwnPop(st: State, w: nat, c: Choice, s: nat)
    requires InTurn(st, w, s) && st.ws[w].Runs?
    ensures Steps(st, Go(st, w, c), w, s)
  {
  }

  lemma OwnCall(st: State, w: nat, c: Choice, s: nat)
    requires InTurn(st, w, s) && st.ws[w].Calls?
    ensures Steps(st, Go(st, w, c), w, s)
  {
  }

  /** A step of the thread itself uses up what it dispatches; the loop ends when nothing may follow. */
  predicate Steps(st: State, st': State, w: nat, s: nat)
    requires w < |st.ws|
  {
    && w < |st'.ws|
    && (Serves(st'.ws[w], s) ==> InTurn(st', w, s) && Room(st.ws[w]) == Logs(st, st', s) + Room(st'.ws[w]))
    && (!Serves(st'.ws[w], s) ==> Logs(st, st', s) <= Room(st.ws[w]))
    && (st'.ws[w] == Next(s) ==> Logs(st, st', s) == Room(st.ws[w]))
  }

  lemma {:induction false} TurnKept(st: State, steps: seq<(nat, Choice)>, w: nat, s: nat)
    requires InTurn(st, w, s)
    ensures Served(st, steps, w, s) <= Room(st.ws[w])
    ensures Whole(st, steps, w, s) ==> Served(st, steps, w, s) == Room(st.ws[w])
    decreases |steps|
  {
    hide Go, Room, Logs;
    if steps != [] {
      var (v, c) := steps[0];
      var st' := Go(st, v, c);
      if v != w { OtherStep(st, v, c, w); }
      else if st.ws[w].Runs? { OwnPop(st, w, c, s); } else { OwnCall(st, w, c, s); }
      if Serves(st'.ws[w], s) {
        TurnKept(st', steps[1..], w, s);
      } else {
        assert v == w && Served(st', steps[1..], w, s) == 0;
        assert Whole(st', steps[1..], w, s) ==> st'.ws[w] == Next(s);
      }
    }
  }

  /** In this run the thread comes to the end of the loop. */
  predicate Whole(st: State, steps: seq<(nat, Choice)>, w: nat, s: nat)
    decreases |steps|
  {
    if w >= |st.ws| || !Serves(st.ws[w], s) then w < |st.ws| && st.ws[w] == Next(s)
    else steps != [] && Whole(Go(st, steps[0].0, steps[0].1), steps[1..], w, s)
  }

  function Max(a: int, b: int): int { if a < b then b else a }

  /** A worker of weight `weight` that has popped a first message and finds `n` more behind it
      dispatches at most max(1, n / 2^weight) messages in this turn, and that many if the queue
      does not run empty, whatever other threads do meanwhile. */
  lemma TurnBound(st: State, steps: seq<(nat, Choice)>, w: nat, s: nat, m: Msg, weight: nat)
    requires w < |st.ws| && s < |st.svcs| && st.ws[w] == Sizes(s, m, weight)
    requires steps != [] && steps[0].0 == w
    ensures Power2(weight) > 0
    ensures var bound := Max(1, |st.svcs[s].queue| / Power2(weight));
      && Served(st, steps, w, s) <= bound
      && (Whole(st, steps, w, s) ==> Served(st, steps, w, s) == bound)
  {
    hide *;
    ShiftIs(|st.svcs[s].queue|, weight);
    TurnShift(st, steps, w, s, m, weight);
  }

  lemma TurnShift(st: State, steps: seq<(nat, Choice)>, w: nat, s: nat, m: Msg, weight: nat)
    requires w < |st.ws| && s < |st.svcs| && st.ws[w] == Sizes(s, m, weight)
    requires steps != [] && steps[0].0 == w
    ensures var bound := Max(1, Shift(|st.svcs[s].queue|, weight));
      && Served(st, steps, w, s) <= bound
      && (Whole(st, steps, w, s) ==> Served(st, steps, w, s) == bound)
  {
    hide Go, Shift;
    var st' := Go(st, w, steps[0].1);
    Sized(st, w, steps[0].1);
    assert InTurn(st', w, s);
    TurnKept(st', steps[1..], w, s);
  }

  lemma Sized(st: State, w: nat, c: Choice)
    requires w < |st.ws| && st.ws[w].Sizes? && st.ws[w].s < |st.svcs|
    ensures var st' := Go(st, w, c);
      && st'.svcs == st.svcs && w < |st'.ws|
      && st'.ws[w] == Calls(st.ws[w].s, st.ws[w].m, 0, Shift(|st.svcs[st.ws[w].s].queue|, st.ws[w].weight))
  {
    hide Shift;
  }

  /** A worker without a weight dispatches one message. */
  lemma OneMessage(st: State, steps: seq<(nat, Choice)>, w: nat, s: nat, c: Choice)
    requires w < |st.ws| && s < |st.svcs| && st.ws[w] == Runs(s, 0, 1) && st.svcs[s].queue != []
    requires !(c.Weight? && c.weight >= 0)
    ensures Served(st, [(w, c)] + steps, w, s) <= 1
    ensures Whole(st, [(w, c)] + steps, w, s) ==> Served(st, [(w, c)] + steps, w, s) == 1
  {
    var all := [(w, c)] + steps;
    assert all[0] == (w, c) && all[1..] == steps;
    var st' := Go(st, w, c);
    assert st'.ws[w] == Calls(s, st.svcs[s].queue[0], 0, 1);
    assert Logs(st, st', s) == 0;
    hide Go;
    assert InTurn(st', w, s);
    TurnKept(st', steps, w, s);
  }
}
