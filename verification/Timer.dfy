/**
 * The timing wheel: 256 near lists and four levels of 64 lists over a 32-bit clock that wraps.
 * The specification is a plain list of pending timers, of which those due at the new tick fire.
 */
module Timer {
  const CLOCK := 0x1_0000_0000
  const MAX_WAIT := 0x7fff_ffff

  type Tick = t: int | 0 <= t < CLOCK
  type Event = nat

  /** `id` counts timers in the order they were added. */
  datatype Node = Node(event: Event, expire: Tick, id: nat)

  datatype Place = Near(i: nat) | Level(k: nat, j: nat)

  /** Ticks in one slot of level `k`. */
  function Width(k: nat): (w: nat)
    requires k <= 4
    ensures 0 < w
  {
    if k == 0 then 0x100 else if k == 1 then 0x4000 else if k == 2 then 0x10_0000 else if k == 3 then 0x400_0000 else CLOCK
  }

  /** The list for an expiry time at clock `now`. */
  function Spot(e: Tick, now: Tick): Place {
    if e / 0x100 == now / 0x100 then Near(e % 0x100)
    else if e / 0x4000 == now / 0x4000 then Level(0, e / 0x100 % 64)
    else if e / 0x10_0000 == now / 0x10_0000 then Level(1, e / 0x4000 % 64)
    else if e / 0x400_0000 == now / 0x400_0000 then Level(2, e / 0x10_0000 % 64)
    else Level(3, e / 0x400_0000 % 64)
  }

  function Plus(now: Tick, d: nat): Tick { (now + d) % CLOCK }

  /** Ticks until `e`. */
  function Wait(e: Tick, now: Tick): nat { if now <= e then e - now else e - now + CLOCK }

  /** The level and slot whose list is spread when the clock reaches `now`, a multiple of 256. */
  predicate Spreads(now: Tick, k: nat, j: nat) {
    k < 4 && j < 64 && now % Width(k) == 0 && now / Width(k) % 64 == j && (j != 0 || k == 3)
  }

  lemma Chain(e: Tick)
    ensures e / 0x4000 == e / 0x100 / 64
    ensures e / 0x10_0000 == e / 0x4000 / 64
    ensures e / 0x400_0000 == e / 0x10_0000 / 64
    ensures e / 0x400_0000 < 64
  {
  }

  /** The quotient steps exactly at multiples. */
  lemma Carry(n: nat, w: nat)
    requires w > 0
    ensures (n + 1) / w == n / w + if (n + 1) % w == 0 then 1 else 0
    ensures (n + 1) % w == 0 ==> n == w * (n / w) + w - 1
  {
    var q, r := n / w, n % w;
    assert n + 1 == w * q + (r + 1);
    if r + 1 == w {
      assert n + 1 == w * (q + 1);
      DivUnique(n + 1, w, q + 1, 0);
    } else {
      DivUnique(n + 1, w, q, r + 1);
    }
  }

  lemma DivUnique(n: nat, w: nat, q: nat, r: nat)
    requires r < w && n == w * q + r
    ensures n / w == q && n % w == r
  {
    var q', r' := n / w, n % w;
    if q' < q {
      Gap(w, q', q);
    } else if q < q' {
      Gap(w, q, q');
    }
  }

  lemma Gap(w: nat, p: nat, q: nat)
    requires p < q
    ensures w * p + w <= w * q
  {
    if q == p + 1 {
      assert w * (p + 1) == w * p + w;
    } else {
      Gap(w, p, q - 1);
      assert w * (q - 1) == w * q - w;
    }
  }

  /** A multiple of the next width is in slot 0. */
  lemma SlotZero(ct: nat)
    ensures ct % 0x4000 == 0 ==> ct / 0x100 % 64 == 0
    ensures ct % 0x10_0000 == 0 ==> ct / 0x4000 % 64 == 0 && ct % 0x4000 == 0
    ensures ct % 0x400_0000 == 0 ==> ct / 0x10_0000 % 64 == 0 && ct % 0x10_0000 == 0
  {
    SlotZero1(ct, 0x100, 0x4000);
    SlotZero1(ct, 0x4000, 0x10_0000);
    SlotZero1(ct, 0x10_0000, 0x400_0000);
  }

  lemma SlotZero1(ct: nat, w: nat, w': nat)
    requires 0 < w && w' == w * 64
    ensures ct % w' == 0 ==> ct / w % 64 == 0 && ct % w == 0
  {
    if ct % w' == 0 {
      var q := ct / w';
      assert ct == w' * q == w * (64 * q);
      DivUnique(ct, w, 64 * q, 0);
      assert (64 * q) % 64 == 0;
    }
  }

  lemma SpotNext(e: Tick, now: Tick)
    requires now + 1 < CLOCK && (now + 1) % 0x100 != 0
    ensures Spot(e, now + 1) == Spot(e, now)
  {
    Carry(now, 0x100);
    Chain(now);
    Chain(now + 1);
  }

  /** A pending timer is not in the block that ends now. */
  lemma NotBehind(e: Tick, now: Tick, w: nat)
    requires 0 < w <= 0x400_0000 && 1 <= Wait(e, now) <= MAX_WAIT && (now + 1) % w == 0
    ensures e / w != now / w
  {
    Carry(now, w);
    var q := now / w;
    assert e == w * (e / w) + e % w;
  }

  /** `Spot` from the quotients by the widths of the levels. */
  function SpotOf(low: nat, e0: nat, e1: nat, e2: nat, e3: nat, n0: nat, n1: nat, n2: nat, n3: nat): Place {
    if e0 == n0 then Near(low)
    else if e1 == n1 then Level(0, e0 % 64)
    else if e2 == n2 then Level(1, e1 % 64)
    else if e3 == n3 then Level(2, e2 % 64)
    else Level(3, e3 % 64)
  }

  lemma SpotQuotients(e: Tick, now: Tick)
    ensures Spot(e, now) == SpotOf(e % 0x100, e / 0x100, e / 0x4000, e / 0x10_0000, e / 0x400_0000,
                                   now / 0x100, now / 0x4000, now / 0x10_0000, now / 0x400_0000)
  {
  }

  lemma SpreadCore(k: nat, j: nat, low: nat, e0: nat, e1: nat, e2: nat, e3: nat,
                   n0: nat, n1: nat, n2: nat, n3: nat, c0: nat, c1: nat, c2: nat, c3: nat)
    requires e1 == e0 / 64 && e2 == e1 / 64 && e3 == e2 / 64
    requires n1 == n0 / 64 && n2 == n1 / 64 && n3 == n2 / 64
    requires c1 == c0 / 64 && c2 == c1 / 64 && c3 == c2 / 64
    requires k <= 3 && j == (if k == 0 then c0 else if k == 1 then c1 else if k == 2 then c2 else c3) % 64
    requires (if k == 0 then e0 != n0 else if k == 1 then e1 != n1 else if k == 2 then e2 != n2 else e3 != n3)
    requires (k < 1 ==> c1 == n1) && (k < 2 ==> c2 == n2) && (k < 3 ==> c3 == n3)
    ensures SpotOf(low, e0, e1, e2, e3, n0, n1, n2, n3) != Level(k, j) ==>
      SpotOf(low, e0, e1, e2, e3, c0, c1, c2, c3) == SpotOf(low, e0, e1, e2, e3, n0, n1, n2, n3)
  {
  }

  /** Only the spread list changes place; everything nearer is empty by then. */
  lemma SpotSpread(e: Tick, now: Tick, k: nat, j: nat)
    requires 1 <= Wait(e, now) <= MAX_WAIT && Spreads(Plus(now, 1), k, j)
    ensures Spot(e, now) != Level(k, j) ==> Spot(e, Plus(now, 1)) == Spot(e, now)
  {
    var ct := Plus(now, 1);
    BehindSpread(e, now, k, j);
    Chain(e);
    Chain(now);
    Chain(ct);
    SpotQuotients(e, now);
    SpotQuotients(e, ct);
    CarryStops(now, k, j);
    SpreadCore(k, j, e % 0x100, e / 0x100, e / 0x4000, e / 0x10_0000, e / 0x400_0000,
               now / 0x100, now / 0x4000, now / 0x10_0000, now / 0x400_0000,
               ct / 0x100, ct / 0x4000, ct / 0x10_0000, ct / 0x400_0000);
  }

  lemma BehindSpread(e: Tick, now: Tick, k: nat, j: nat)
    requires 1 <= Wait(e, now) <= MAX_WAIT && Spreads(Plus(now, 1), k, j)
    ensures e / Width(k) != now / Width(k)
  {
    assert (now + 1) % Width(k) == 0;
    NotBehind(e, now, Width(k));
  }

  lemma CarryOnly(now: nat, w: nat)
    requires w > 0
    ensures (now + 1) % w != 0 ==> (now + 1) / w == now / w
  {
    Carry(now, w);
  }

  /** No carry beyond the level whose slot is not zero. */
  lemma CarryStops(now: Tick, k: nat, j: nat)
    requires Spreads(Plus(now, 1), k, j)
    ensures var ct := Plus(now, 1);
      && (k < 1 ==> ct / 0x4000 == now / 0x4000)
      && (k < 2 ==> ct / 0x10_0000 == now / 0x10_0000)
      && (k < 3 ==> ct / 0x400_0000 == now / 0x400_0000)
  {
    if now + 1 < CLOCK {
      SlotZero(now + 1);
      CarryOnly(now, 0x4000);
      CarryOnly(now, 0x10_0000);
      CarryOnly(now, 0x400_0000);
    }
  }

  /** A timer in the near list of the current tick expires at this tick. */
  lemma NearIsDue(e: Tick, now: Tick)
    ensures Spot(e, now) == Near(now % 0x100) <==> e == now
  {
  }

  /** Bitwise or. */
  function Or(a: nat, b: nat): nat
    decreases a + b
  {
    if a == 0 then b else if b == 0 then a
    else 2 * Or(a / 2, b / 2) + if a % 2 == 1 || b % 2 == 1 then 1 else 0
  }

  function ShiftRight(x: nat, k: nat): nat
    decreases k
  {
    if k == 0 then x else ShiftRight(x / 2, k - 1)
  }

  /** `k` ones. */
  function Ones(k: nat): nat { if k == 0 then 0 else 2 * Ones(k - 1) + 1 }

  /** Words agree in the bits above a mask exactly when they are in one block. */
  lemma {:induction false} MaskTests(e: nat, now: nat, k: nat)
    ensures Or(e, Ones(k)) == Or(now, Ones(k)) <==> ShiftRight(e, k) == ShiftRight(now, k)
    decreases k
  {
    if k > 0 {
      OrOnes(e, k);
      OrOnes(now, k);
      MaskTests(e / 2, now / 2, k - 1);
    }
  }

  lemma OrOnes(x: nat, k: nat)
    requires k > 0
    ensures Or(x, Ones(k)) == 2 * Or(x / 2, Ones(k - 1)) + 1
  {
    assert Ones(k) / 2 == Ones(k - 1) && Ones(k) % 2 == 1;
  }

  lemma {:induction false} ShiftMore(x: nat, k: nat, m: nat)
    ensures ShiftRight(x, k + m) == ShiftRight(ShiftRight(x, k), m)
    decreases k
  {
    if k > 0 { ShiftMore(x / 2, k - 1, m); }
  }

  lemma Shift2(x: nat)
    ensures ShiftRight(x, 2) == x / 4
  {
    assert ShiftRight(x, 2) == ShiftRight(x / 2, 1) == ShiftRight(x / 2 / 2, 0);
  }

  lemma Shift6(x: nat)
    ensures ShiftRight(x, 6) == x / 64
  {
    hide ShiftRight;
    ShiftMore(x, 2, 4);
    ShiftMore(x / 4, 2, 2);
    Shift2(x);
    Shift2(x / 4);
    Shift2(x / 4 / 4);
  }

  lemma Shift8(x: nat)
    ensures ShiftRight(x, 8) == x / 0x100
  {
    hide ShiftRight;
    ShiftMore(x, 6, 2);
    Shift6(x);
    Shift2(x / 64);
  }

  lemma Quotients(x: Tick)
    ensures ShiftRight(x, 8) == x / 0x100 && ShiftRight(x, 14) == x / 0x4000
    ensures ShiftRight(x, 20) == x / 0x10_0000 && ShiftRight(x, 26) == x / 0x400_0000
  {
    hide ShiftRight;
    Chain(x);
    Shift8(x);
    ShiftMore(x, 8, 6);
    ShiftMore(x, 14, 6);
    ShiftMore(x, 20, 6);
    Shift6(x / 0x100);
    Shift6(x / 0x4000);
    Shift6(x / 0x10_0000);
  }

  lemma Masks()
    ensures Ones(8) == 0xff && Ones(14) == 0x3fff && Ones(20) == 0xf_ffff && Ones(26) == 0x3ff_ffff
  {
    assert Ones(4) == 0xf;
    assert Ones(8) == 0xff;
    assert Ones(12) == 0xfff;
    assert Ones(16) == 0xffff;
    assert Ones(20) == 0xf_ffff;
    assert Ones(24) == 0xff_ffff;
  }

  /** The block tests of `add_node`. */
  lemma BlockTests(e: Tick, now: Tick)
    ensures Or(e, 0xff) == Or(now, 0xff) <==> e / 0x100 == now / 0x100
    ensures Or(e, 0x3fff) == Or(now, 0x3fff) <==> e / 0x4000 == now / 0x4000
    ensures Or(e, 0xf_ffff) == Or(now, 0xf_ffff) <==> e / 0x10_0000 == now / 0x10_0000
    ensures Or(e, 0x3ff_ffff) == Or(now, 0x3ff_ffff) <==> e / 0x400_0000 == now / 0x400_0000
  {
    hide Or, ShiftRight, Ones;
    Masks();
    Quotients(e);
    Quotients(now);
    MaskTests(e, now, 8);
    MaskTests(e, now, 14);
    MaskTests(e, now, 20);
    MaskTests(e, now, 26);
  }

  // ---- the specification: a list of pending timers

  function Fired(pending: seq<Node>, now: Tick): seq<Node> {
    if pending == [] then []
    else if pending[0].expire == now then [pending[0]] + Fired(pending[1..], now)
    else Fired(pending[1..], now)
  }

  function Rest(pending: seq<Node>, now: Tick): seq<Node> {
    if pending == [] then []
    else if pending[0].expire == now then Rest(pending[1..], now)
    else [pending[0]] + Rest(pending[1..], now)
  }

  /** Clock, pending timers and the number of timers ever added. */
  datatype Model = Model(now: Tick, pending: seq<Node>, added: nat)

  datatype Op = Tick | Add(event: Event, wait: nat)

  function Apply(m: Model, op: Op): Model {
    match op
    case Tick => Model(Plus(m.now, 1), Rest(m.pending, Plus(m.now, 1)), m.added)
    case Add(event, wait) => Model(m.now, m.pending + [Node(event, Plus(m.now, wait), m.added)], m.added + 1)
  }

  function Run(m: Model, ops: seq<Op>): Model
    decreases |ops|
  {
    if ops == [] then m else Run(Apply(m, ops[0]), ops[1..])
  }

  /** What fires at each tick of `ops`. */
  function Log(m: Model, ops: seq<Op>): seq<seq<Node>>
    decreases |ops|
  {
    if ops == [] then []
    else (if ops[0].Tick? then [Fired(m.pending, Plus(m.now, 1))] else []) + Log(Apply(m, ops[0]), ops[1..])
  }

  /** In the order of adding, with distinct tags. */
  predicate Tagged(ns: seq<Node>) { forall i, j :: 0 <= i < j < |ns| ==> ns[i].id < ns[j].id }

  /** Of equal expiry, the earlier added comes first. */
  predicate Stable(ns: seq<Node>) {
    forall i, j :: 0 <= i < j < |ns| ==> ns[i].id != ns[j].id && (ns[i].expire == ns[j].expire ==> ns[i].id < ns[j].id)
  }

  lemma {:induction false} FiredMembers(pending: seq<Node>, now: Tick)
    ensures forall n :: n in Fired(pending, now) <==> n in pending && n.expire == now
    ensures forall n :: n in Rest(pending, now) <==> n in pending && n.expire != now
  {
    if pending != [] {
      FiredMembers(pending[1..], now);
      assert pending == [pending[0]] + pending[1..];
    }
  }

  lemma {:induction false} FiredTagged(pending: seq<Node>, now: Tick)
    requires Tagged(pending)
    ensures Tagged(Fired(pending, now)) && Tagged(Rest(pending, now))
  {
    if pending != [] {
      FiredTagged(pending[1..], now);
      FiredMembers(pending[1..], now);
      var f, r := Fired(pending[1..], now), Rest(pending[1..], now);
      assert forall n :: n in pending[1..] ==> pending[0].id < n.id;
      assert forall k :: 0 <= k < |f| ==> f[k] in f;
      assert forall k :: 0 <= k < |r| ==> r[k] in r;
      TaggedCons(pending[0], f);
      TaggedCons(pending[0], r);
    }
  }

  lemma TaggedCons(n: Node, ns: seq<Node>)
    requires Tagged(ns) && forall k :: 0 <= k < |ns| ==> n.id < ns[k].id
    ensures Tagged([n] + ns)
  {
    var l := [n] + ns;
    forall i, j | 0 <= i < j < |l| ensures l[i].id < l[j].id {
      if i > 0 { assert l[i] == ns[i - 1] && l[j] == ns[j - 1]; }
    }
  }

  lemma HeadIn(ns: seq<Node>)
    requires ns != []
    ensures ns[0] in ns
  {
  }

  lemma {:induction false} TaggedEqual(a: seq<Node>, b: seq<Node>)
    requires Tagged(a) && Tagged(b) && forall n :: n in a <==> n in b
    ensures a == b
  {
    if a == [] {
      if b != [] { HeadIn(b); }
    } else {
      HeadIn(a);
      if b != [] { HeadIn(b); }
      var i :| 0 <= i < |a| && a[i] == b[0];
      var j :| 0 <= j < |b| && b[j] == a[0];
      assert a[0] == b[0];
      forall n ensures n in a[1..] <==> n in b[1..] {
        if n in a[1..] {
          var k :| 0 <= k < |a[1..]| && a[1..][k] == n;
          assert a[k + 1] == n && n in b;
          var l :| 0 <= l < |b| && b[l] == n;
          assert l > 0;
          assert b[1..][l - 1] == n;
        }
        if n in b[1..] {
          var k :| 0 <= k < |b[1..]| && b[1..][k] == n;
          assert b[k + 1] == n && n in a;
          var l :| 0 <= l < |a| && a[l] == n;
          assert l > 0;
          assert a[1..][l - 1] == n;
        }
      }
      TaggedEqual(a[1..], b[1..]);
    }
  }

  predicate Sane(m: Model) { Tagged(m.pending) && forall n :: n in m.pending ==> n.id < m.added }

  lemma SaneKept(m: Model, op: Op)
    requires Sane(m)
    ensures Sane(Apply(m, op))
  {
    if op.Tick? {
      FiredTagged(m.pending, Plus(m.now, 1));
      FiredMembers(m.pending, Plus(m.now, 1));
    } else {
      assert forall i :: 0 <= i < |m.pending| ==> m.pending[i] in m.pending;
    }
  }

  /** A timer that is pending, with `w` ticks to go, fires at the `w`-th tick and at no other. */
  lemma {:induction false} FiresOnce(m: Model, ops: seq<Op>, n: Node, t: nat)
    requires Sane(m) && n in m.pending && t < |Log(m, ops)| && Wait(n.expire, m.now) >= 1
    ensures n in Log(m, ops)[t] <==> t + 1 == Wait(n.expire, m.now)
    decreases |ops|
  {
    hide Fired, Rest, Tagged;
    SaneKept(m, ops[0]);
    var m' := Apply(m, ops[0]);
    if ops[0].Tick? {
      FiredMembers(m.pending, m'.now);
      if t > 0 {
        if n.expire == m'.now { Gone(m', ops[1..], n, t - 1); } else { FiresOnce(m', ops[1..], n, t - 1); }
      }
    } else {
      FiresOnce(m', ops[1..], n, t);
    }
  }

  /** A timer that has fired never fires again. */
  lemma {:induction false} Gone(m: Model, ops: seq<Op>, n: Node, t: nat)
    requires Sane(m) && n.id < m.added && n !in m.pending && t < |Log(m, ops)|
    ensures n !in Log(m, ops)[t]
    decreases |ops|
  {
    hide Fired, Rest, Tagged;
    SaneKept(m, ops[0]);
    var m' := Apply(m, ops[0]);
    if ops[0].Tick? {
      FiredMembers(m.pending, m'.now);
      if t > 0 { Gone(m', ops[1..], n, t - 1); }
    } else {
      Gone(m', ops[1..], n, t);
    }
  }

  /** Timers that fire at one tick fire in the order they were added, and all expire then. */
  lemma {:induction false} FiresInOrder(m: Model, ops: seq<Op>, t: nat)
    requires Sane(m) && t < |Log(m, ops)|
    ensures Tagged(Log(m, ops)[t])
    ensures forall n :: n in Log(m, ops)[t] ==> n.expire == Plus(m.now, t + 1)
    decreases |ops|
  {
    hide Fired, Rest, Tagged;
    SaneKept(m, ops[0]);
    var m' := Apply(m, ops[0]);
    if ops[0].Tick? {
      FiredMembers(m.pending, m'.now);
      FiredTagged(m.pending, m'.now);
      if t > 0 { FiresInOrder(m', ops[1..], t - 1); }
    } else {
      FiresInOrder(m', ops[1..], t);
    }
  }

  /** A timer added for `wait` ticks fires exactly once, `wait` ticks later, whatever else is added. */
  lemma AddedFiresOnce(m: Model, event: Event, wait: nat, ops: seq<Op>, t: nat)
    requires Sane(m) && 1 <= wait <= 0x7fff_ffff && t < |Log(Apply(m, Add(event, wait)), ops)|
    ensures Node(event, Plus(m.now, wait), m.added) in Log(Apply(m, Add(event, wait)), ops)[t] <==> t + 1 == wait
  {
    SaneKept(m, Add(event, wait));
    FiresOnce(Apply(m, Add(event, wait)), ops, Node(event, Plus(m.now, wait), m.added), t);
  }

  function SetOf(ns: seq<Node>): set<Node> { set n | n in ns }

  predicate InRange(p: Place) { if p.Near? then p.i < 256 else p.k < 4 && p.j < 64 }

  predicate AllPending(ns: set<Node>, now: Tick) { forall n :: n in ns ==> 1 <= Wait(n.expire, now) <= MAX_WAIT }

  predicate Distinct(ns: set<Node>) { forall n, m :: n in ns && m in ns && n.id == m.id ==> n == m }

  /** The list `l` is the one for place `p` of the nodes `ns`. */
  ghost predicate Placed(l: seq<Node>, p: Place, ns: set<Node>, now: Tick) {
    Stable(l) && forall n :: n in l <==> n in ns && Spot(n.expire, now) == p
  }

  lemma PlacedAdd(l: seq<Node>, p: Place, ns: set<Node>, now: Tick, x: Node)
    requires Placed(l, p, ns, now)
    requires forall m :: m in ns ==> m.id != x.id && (m.expire == x.expire ==> m.id < x.id)
    ensures Placed(if p == Spot(x.expire, now) then l + [x] else l, p, ns + {x}, now)
  {
    hide Spot;
    assert forall i :: 0 <= i < |l| ==> l[i] in l;
  }

  lemma PlacedDetach(l: seq<Node>, p: Place, spot: Place, current: seq<Node>, ns: set<Node>, before: Tick, now: Tick)
    requires Placed(l, p, ns, before) && Placed(current, spot, ns, before)
    requires forall n :: n in ns && Spot(n.expire, before) != spot ==> Spot(n.expire, now) == Spot(n.expire, before)
    ensures Placed(if p == spot then [] else l, p, ns - SetOf(current), now)
  {
    hide Spot;
  }

  function Adds(arrivals: seq<(Event, int)>): seq<Op>
    requires forall i :: 0 <= i < |arrivals| ==> 1 <= arrivals[i].1
  {
    seq(|arrivals|, i requires 0 <= i < |arrivals| => Add(arrivals[i].0, arrivals[i].1))
  }

  lemma {:induction false} NoneFired(pending: seq<Node>, now: Tick)
    requires forall n :: n in pending ==> n.expire != now
    ensures Fired(pending, now) == [] && Rest(pending, now) == pending
  {
    if pending != [] { NoneFired(pending[1..], now); }
  }

  lemma SaneAgain(m: Model, was: Model)
    requires Sane(was) && m.pending == was.pending && m.added == was.added
    ensures Sane(m)
  {
  }

  lemma ApplyTick(m: Model)
    ensures Apply(m, Tick) == Model(Plus(m.now, 1), Rest(m.pending, Plus(m.now, 1)), m.added)
  {
  }

  lemma RunNone(m: Model)
    ensures Run(m, []) == m
  {
  }

  lemma OneTick(m: Model, ops: seq<Op>)
    ensures Run(m, [Tick] + ops) == Run(Apply(m, Tick), ops)
    ensures Log(m, [Tick]) == [Fired(m.pending, Plus(m.now, 1))]
  {
    assert ([Tick] + ops)[1..] == ops && [Tick][1..] == [];
  }

  class Wheel {
    var near: array<seq<Node>>
    var level: array2<seq<Node>>
    var time: Tick
    var added: nat
    ghost var pending: seq<Node>

    predicate Shaped()
      reads this
    {
      near.Length == 256 && level.Length0 == 4 && level.Length1 == 64
    }

    function At(p: Place): seq<Node>
      requires Shaped() && InRange(p)
      reads this, near, level
    {
      match p
      case Near(i) => near[i]
      case Level(k, j) => level[k, j]
    }

    /** The lists hold the nodes of `ns`, each where its expiry time belongs at clock `now`. */
    ghost predicate Holds(ns: set<Node>, now: Tick)
      requires Shaped()
      reads this, near, level
    {
      forall p :: InRange(p) ==> Placed(At(p), p, ns, now)
    }

    ghost predicate Valid()
      reads this, near, level
    {
      && Shaped() && Tagged(pending) && (forall n :: n in pending ==> n.id < added)
      && AllPending(SetOf(pending), time) && Holds(SetOf(pending), time)
    }

    constructor ()
      ensures Valid() && fresh(near) && fresh(level) && pending == [] && time == 0
    {
      hide Spot;
      near := new seq<Node>[256](_ => []);
      level := new seq<Node>[4, 64]((_, _) => []);
      time, added, pending := 0, 0, [];
    }

    /** `add_node` */
    method AddNode(node: Node)
      requires Shaped()
      modifies near, level
      ensures forall p :: InRange(p) ==>
        At(p) == if p == Spot(node.expire, time) then old(At(p)) + [node] else old(At(p))
    {
      var e, now := node.expire, time;
      BlockTests(e, now);
      if Or(e, 0xff) == Or(now, 0xff) {
        near[e % 0x100] := near[e % 0x100] + [node];
      } else {
        var i, width := 0, 0x4000;
        while i < 3 && Or(e, width - 1) != Or(now, width - 1)
          invariant 0 <= i <= 3 && width == Width(i + 1)
          invariant i > 0 ==> e / 0x4000 != now / 0x4000
          invariant i > 1 ==> e / 0x10_0000 != now / 0x10_0000
          invariant i > 2 ==> e / 0x400_0000 != now / 0x400_0000
        {
          width := width * 64;
          i := i + 1;
        }
        var j := e / Width(i) % 64;
        level[i, j] := level[i, j] + [node];
      }
    }

    /** `add_node` for a node that is newer than those of its expiry time. */
    method Place(node: Node, ghost ns: set<Node>)
      requires Shaped() && Holds(ns, time)
      requires forall m :: m in ns ==> m.id != node.id && (m.expire == node.expire ==> m.id < node.id)
      modifies near, level
      ensures Holds(ns + {node}, time)
    {
      hide Placed, Spot;
      forall p | InRange(p) ensures Placed(if p == Spot(node.expire, time) then At(p) + [node] else At(p), p, ns + {node}, time) {
        PlacedAdd(At(p), p, ns, time, node);
      }
      AddNode(node);
    }

    /** `timer_add` */
    method Add(event: Event, wait: int)
      requires Valid() && 1 <= wait <= 0x7fff_ffff
      modifies this`added, this`pending, near, level
      ensures Valid() && pending == old(pending) + [Node(event, Plus(time, wait), old(added))]
      ensures added == old(added) + 1
    {
      hide Placed, Spot;
      var node := Node(event, (wait + time) % CLOCK, added);
      Place(node, SetOf(pending));
      added := added + 1;
      pending := pending + [node];
      assert SetOf(pending) == SetOf(old(pending)) + {node};
    }

    /** `move_list`: spread one list over the lists that its nodes belong to now. */
    method MoveList(k: nat, j: nat, ghost ns: set<Node>, ghost before: Tick)
      requires Shaped() && k < 4 && j < 64 && Holds(ns, before) && Distinct(ns)
      requires forall n :: n in ns && Spot(n.expire, before) != Level(k, j) ==> Spot(n.expire, time) == Spot(n.expire, before)
      modifies near, level
      ensures Holds(ns, time)
    {
      hide Spot, Stable;
      var current := level[k, j];
      ghost var spot := Level(k, j);
      assert current == At(spot) && InRange(spot);
      assert Placed(current, spot, ns, before);
      level[k, j] := [];
      forall p | InRange(p) ensures Placed(At(p), p, ns - SetOf(current), time) {
        assert Placed(old(At(p)), p, ns, before);
        PlacedDetach(old(At(p)), p, spot, current, ns, before, time);
      }
      SpreadList(current, ns);
    }

    /** `timer_shift`: advance the clock and spread at most one list. */
    method Shift()
      requires Valid()
      modifies this`time, near, level
      ensures Shaped() && time == Plus(old(time), 1) && Holds(SetOf(pending), time)
    {
      hide Spot, Placed, Stable, Tagged;
      TaggedDistinct(pending);
      ghost var ns, before := SetOf(pending), time;
      time := (time + 1) % CLOCK;
      var ct := time;
      if ct == 0 {
        SpreadAll(ns, before, 3, 0);
        MoveList(3, 0, ns, before);
      } else {
        var mask, t, i := 0x100, ct / 0x100, 0;
        while ct % mask == 0
          invariant 0 <= i <= 3 && mask == Width(i) && t == ct / mask
          invariant i > 0 ==> ct % mask == 0
          invariant time == ct && Holds(ns, before)
          decreases 4 - i
        {
          var idx := t % 64;
          if idx != 0 {
            assert Spreads(ct, i, idx);
            SpreadAll(ns, before, i, idx);
            MoveList(i, idx, ns, before);
            return;
          }
          NextLevel(ct, i);
          mask := mask * 64;
          t := t / 64;
          i := i + 1;
        }
        forall n | n in ns ensures Spot(n.expire, ct) == Spot(n.expire, before) {
          SpotNext(n.expire, before);
        }
        Reclock(ns, before);
      }
    }

    ghost function Abs(): Model
      reads this
    {
      Model(time, pending, added)
    }

    /** Other threads add timers while the lock is released. */
    method Arrive(arrivals: seq<(Event, int)>)
      requires Valid() && forall i :: 0 <= i < |arrivals| ==> 1 <= arrivals[i].1 <= MAX_WAIT
      modifies this`added, this`pending, near, level
      ensures Valid() && Abs() == Run(old(Abs()), Adds(arrivals))
    {
      hide Fired, Rest, Holds, AllPending, Tagged;
      var i := 0;
      while i < |arrivals|
        invariant 0 <= i <= |arrivals| && Valid()
        invariant Run(Abs(), Adds(arrivals[i..])) == Run(old(Abs()), Adds(arrivals))
      {
        Add(arrivals[i].0, arrivals[i].1);
        assert Adds(arrivals[i..])[1..] == Adds(arrivals[i + 1..]);
        i := i + 1;
      }
    }

    /** The near list of the current tick is what is due, in the order of adding. */
    lemma DueList()
      requires Shaped() && Tagged(pending) && Holds(SetOf(pending), time)
      ensures near[time % 0x100] == Fired(pending, time)
    {
      var p, l := Near(time % 0x100), near[time % 0x100];
      assert l == At(p) && InRange(p) && Placed(At(p), p, SetOf(pending), time);
      forall n ensures n in l <==> n in Fired(pending, time) {
        NearIsDue(n.expire, time);
        FiredMembers(pending, time);
      }
      hide Spot, Fired, Rest;
      FiredMembers(pending, time);
      assert forall i :: 0 <= i < |l| ==> l[i] in l;
      FiredTagged(pending, time);
      TaggedEqual(l, Fired(pending, time));
    }

    lemma NothingDue()
      requires Valid()
      ensures near[time % 0x100] == [] && Fired(pending, time) == [] && Rest(pending, time) == pending
    {
      DueList();
      NoneFired(pending, time);
    }

    /** Take the list of the current tick off. */
    method Detach()
      requires Shaped() && Sane(Abs()) && Holds(SetOf(pending), time)
      requires forall n :: n in pending ==> Wait(n.expire, time) <= MAX_WAIT
      modifies this`pending, near
      ensures Valid() && pending == Rest(old(pending), time)
    {
      hide Spot, Fired, Rest;
      var idx := time % 0x100;
      FiredMembers(pending, time);
      FiredTagged(pending, time);
      ghost var was := pending;
      near[idx] := [];
      pending := Rest(pending, time);
      forall p | InRange(p) ensures Placed(At(p), p, SetOf(pending), time) {
        assert Placed(old(At(p)), p, SetOf(was), time);
        assert At(p) == if p == Near(idx) then [] else old(At(p));
        forall n | n in was ensures Spot(n.expire, time) == Near(idx) <==> n.expire == time { NearIsDue(n.expire, time); }
      }
    }

    /** `skynet_timeout`; is the answer sent at once? */
    method Timeout(event: Event, wait: int) returns (immediate: bool)
      requires Valid() && wait <= 0x7fff_ffff
      modifies this`added, this`pending, near, level
      ensures Valid() && immediate == (wait <= 0)
      ensures Abs() == if immediate then old(Abs()) else Apply(old(Abs()), Op.Add(event, wait))
    {
      hide Holds;
      immediate := wait <= 0;
      if wait > 0 {
        Add(event, wait);
      }
    }

    /** `timer_execute`: dispatch the list of the current tick with the lock released. */
    method Execute(arrivals: seq<(Event, int)>) returns (fired: seq<Node>)
      requires Shaped() && Sane(Abs()) && Holds(SetOf(pending), time)
      requires forall n :: n in pending ==> Wait(n.expire, time) <= MAX_WAIT
      requires forall i :: 0 <= i < |arrivals| ==> 1 <= arrivals[i].1 <= MAX_WAIT
      modifies this`added, this`pending, near, level
      ensures Valid() && fired == Fired(old(pending), time)
      ensures Abs() == Run(Model(time, Rest(old(pending), time), old(added)), if fired == [] then [] else Adds(arrivals))
    {
      hide Spot, Fired, Rest, Placed, Stable, Tagged;
      var idx := time % 0x100;
      fired := [];
      DueList();
      if near[idx] == [] { NotFired(); }
      while near[idx] != []
        invariant near[idx] == [] ==> Valid() && fired == Fired(old(pending), time)
        invariant near[idx] == [] ==>
          Abs() == Run(Model(time, Rest(old(pending), time), old(added)), if fired == [] then [] else Adds(arrivals))
        invariant near[idx] != [] ==>
          near[idx] == Fired(old(pending), time) && Abs() == old(Abs()) && Holds(SetOf(pending), time)
        decreases |near[idx]|
      {
        fired := near[idx];
        Detach();
        Arrive(arrivals);
        NothingDue();
      }
    }

    lemma NotFired()
      requires Shaped() && Sane(Abs()) && Holds(SetOf(pending), time) && Fired(pending, time) == []
      requires forall n :: n in pending ==> Wait(n.expire, time) <= MAX_WAIT
      ensures Valid() && Rest(pending, time) == pending
    {
      hide Spot, Holds;
      FiredMembers(pending, time);
      assert forall n :: n in pending ==> n !in Fired(pending, time);
      NoneFired(pending, time);
    }

    /** `timer_update`: one tick. Timers may be added only while something is dispatched. */
    method Update(arrivals: seq<(Event, int)>) returns (fired: seq<Node>)
      requires Valid() && forall i :: 0 <= i < |arrivals| ==> 1 <= arrivals[i].1 <= MAX_WAIT
      modifies this, near, level
      ensures Valid() && near == old(near) && level == old(level)
      ensures [fired] == Log(old(Abs()), [Tick])
      ensures Abs() == Run(old(Abs()), [Tick] + if fired == [] then [] else Adds(arrivals))
    {
      hide Spot, Placed, Stable, Holds, Fired, Rest, Log, Run, Apply, Sane;
      NothingDue();
      RunNone(Abs());
      SaneAbs();
      var none := Execute([]);
      assert none == [] && Abs() == old(Abs());
      Shift();
      assert forall n :: n in pending ==> n in SetOf(pending);
      SaneAgain(Abs(), old(Abs()));
      fired := Execute(arrivals);
      ApplyTick(old(Abs()));
      OneTick(old(Abs()), if fired == [] then [] else Adds(arrivals));
    }

    lemma SaneAbs()
      requires Valid()
      ensures Sane(Abs())
    {
    }

    lemma Reclock(ns: set<Node>, before: Tick)
      requires Shaped() && Holds(ns, before)
      requires forall n :: n in ns ==> Spot(n.expire, time) == Spot(n.expire, before)
      ensures Holds(ns, time)
    {
      hide Spot, Stable;
      forall p | InRange(p) ensures Placed(At(p), p, ns, time) {
        assert Placed(At(p), p, ns, before);
      }
    }

    /** The loop of `move_list` over the detached nodes. */
    method SpreadList(current: seq<Node>, ghost ns: set<Node>)
      requires Shaped() && Stable(current) && SetOf(current) <= ns && Holds(ns - SetOf(current), time) && Distinct(ns)
      requires forall m, x :: m in ns - SetOf(current) && x in current ==> m.expire != x.expire
      modifies near, level
      ensures Holds(ns, time)
    {
      hide Spot, Placed;
      var i := 0;
      assert current[i..] == current;
      while i < |current|
        invariant 0 <= i <= |current|
        invariant Holds(ns - SetOf(current[i..]), time)
        invariant forall m, x :: m in ns - SetOf(current[i..]) && x in current[i..] && m.expire == x.expire ==> m.id < x.id
      {
        var x := current[i];
        ghost var rest := SetOf(current[i + 1..]);
        assert current[i..] == [x] + current[i + 1..];
        assert SetOf(current[i..]) == rest + {x};
        NotAgain(current, i);
        Place(x, ns - SetOf(current[i..]));
        assert ns - SetOf(current[i..]) + {x} == ns - rest;
        i := i + 1;
      }
      assert ns - SetOf(current[i..]) == ns;
    }
  }

  lemma SpreadAll(ns: set<Node>, before: Tick, k: nat, j: nat)
    requires AllPending(ns, before) && Spreads(Plus(before, 1), k, j)
    ensures forall n :: n in ns && Spot(n.expire, before) != Level(k, j) ==>
      Spot(n.expire, Plus(before, 1)) == Spot(n.expire, before)
  {
    hide Spot;
    forall n | n in ns ensures Spot(n.expire, before) != Level(k, j) ==>
      Spot(n.expire, Plus(before, 1)) == Spot(n.expire, before)
    {
      SpotSpread(n.expire, before, k, j);
    }
  }

  /** A zero slot means a multiple of the next width; the top slot of a nonzero clock is not zero. */
  lemma NextLevel(ct: Tick, i: nat)
    requires ct != 0 && i <= 3 && ct % Width(i) == 0 && ct / Width(i) % 64 == 0
    ensures i < 3 && ct % Width(i + 1) == 0 && ct / Width(i) / 64 == ct / Width(i + 1)
  {
    Chain(ct);
    var w := Width(i);
    var q := ct / w;
    assert ct == w * q && q == 64 * (q / 64);
    if i < 3 {
      assert ct == Width(i + 1) * (q / 64);
      DivUnique(ct, Width(i + 1), q / 64, 0);
    }
  }

  lemma TaggedDistinct(ns: seq<Node>)
    requires Tagged(ns)
    ensures Distinct(SetOf(ns))
  {
    forall n, m | n in SetOf(ns) && m in SetOf(ns) && n.id == m.id ensures n == m {
      var i :| 0 <= i < |ns| && ns[i] == n;
      var j :| 0 <= j < |ns| && ns[j] == m;
      assert i == j;
    }
  }

  lemma NotAgain(ns: seq<Node>, i: nat)
    requires Stable(ns) && i < |ns|
    ensures ns[i] !in ns[i + 1..]
    ensures forall x :: x in ns[i + 1..] && x.expire == ns[i].expire ==> ns[i].id < x.id
  {
  }
}
