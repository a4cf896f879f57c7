/**
 * How the code of a pattern begins: where the chain of jumps from its first address leads.
 */
module LpegHead {
  import opened LpegTree
  import opened LpegAnalysis
  import opened LpegVm
  import opened LpegCodegen
  import opened LpegLink

  // ------------------------------------------------------------------ chains of jumps

  ghost predicate Fwd(code: Code, x: int, y: int) { exists n: nat :: y == Follow(code, x, n) }

  lemma FwdRefl(code: Code, x: int)
    ensures Fwd(code, x, x)
  {
    assert x == Follow(code, x, 0);
  }

  lemma {:induction false} FollowSplit(c: Code, x: int, m: nat, k: nat)
    ensures Follow(c, x, m + k) == Follow(c, Follow(c, x, m), k)
    decreases m
  {
    if m > 0 && IsOp(c, x, IJmp) && HasOff(c, x) { FollowSplit(c, Target(c, x), m - 1, k); }
  }

  lemma FwdTrans(c: Code, x: int, y: int, z: int)
    requires Fwd(c, x, y) && Fwd(c, y, z)
    ensures Fwd(c, x, z)
  {
    var m: nat :| y == Follow(c, x, m);
    var k: nat :| z == Follow(c, y, k);
    FollowSplit(c, x, m, k);
  }

  lemma FwdJump(c: Code, x: int, y: int)
    requires IsLabel(c, x, IJmp, y)
    ensures Fwd(c, x, y)
  {
    assert Follow(c, x, 1) == Follow(c, y, 0) == y;
  }

  lemma SettlesVia(c: Code, x: int, m: nat)
    requires Settles(c, Follow(c, x, m))
    ensures Settles(c, x)
  {
    var k: nat :| !IsOp(c, Follow(c, Follow(c, x, m), k), IJmp);
    FollowSplit(c, x, m, k);
  }

  lemma NotJump(c: Code, x: int)
    requires !IsOp(c, x, IJmp)
    ensures Settles(c, x)
  {
    assert !IsOp(c, Follow(c, x, 0), IJmp);
  }

  lemma FwdSettles(c: Code, x: int, y: int)
    requires Fwd(c, x, y) && Settles(c, y)
    ensures Settles(c, x)
  {
    var m: nat :| y == Follow(c, x, m);
    SettlesVia(c, x, m);
  }

  lemma JumpSettles(c: Code, q: int, target: int)
    requires IsLabel(c, q, IJmp, target) && Settles(c, target)
    ensures Settles(c, q)
  {
    assert Follow(c, q, 1) == Follow(c, target, 0) == target;
    SettlesVia(c, q, 1);
  }

  ghost predicate Within(c: Code, o: nat, seg: Code) {
    o + |seg| <= |c| && forall y :: 0 <= y < |seg| ==> c[o + y] == seg[y]
  }

  /** A chain of jumps of a part is a chain of the whole. */
  lemma {:induction false} FollowLift(c: Code, o: nat, seg: Code, x: int, n: nat) returns (m: nat)
    requires Within(c, o, seg)
    ensures Follow(c, o + x, m) == o + Follow(seg, x, n)
    decreases n
  {
    m := 0;
    if n > 0 && IsOp(seg, x, IJmp) && HasOff(seg, x) {
      assert c[o + x] == seg[x] && c[o + (x + 1)] == seg[x + 1];
      m := FollowLift(c, o, seg, Target(seg, x), n - 1);
      m := m + 1;
    }
  }

  lemma FwdLift(c: Code, o: nat, seg: Code, x: int, y: int)
    requires Within(c, o, seg) && Fwd(seg, x, y)
    ensures Fwd(c, o + x, o + y)
  {
    var n: nat :| y == Follow(seg, x, n);
    var m := FollowLift(c, o, seg, x, n);
  }

  /** An address where a chain of jumps ends, and does not end in `IRet`. */
  predicate Waits(c: Code, q: int) { 0 <= q < |c| && c[q].Op? && c[q].op != IJmp && c[q].op != IRet }

  /** The chain behind a call reaches an instruction other than `IRet`, further on. */
  ghost predicate GoesOn(c: Code, q: nat) { exists y: nat :: q + 2 <= y && Fwd(c, q + 2, y) && Waits(c, y) }

  // ------------------------------------------------------------------ heads of patterns

  /** The chain from the first address of some code runs through it to its end, stops at an
      instruction, or meets an open call (`tail` when the chain behind the call runs to the end). */
  datatype Head = Through | Stops | ToRule(k: nat, tail: bool)

  function Then(h1: Head, h2: Head): Head {
    match h1
    case Through => h2
    case Stops => Stops
    case ToRule(k, tail) => ToRule(k, tail && h2.Through?)
  }

  /** The analyses know that no match can start with any character, nor be empty. */
  predicate NeverMatches(d: nat, g: seq<Tree>, t: Tree) { GetFirst(g, t, FullSet, d) == First({}, false) }

  function HeadOf(d: nat, g: seq<Tree>, t: Tree): Head
    decreases t
  {
    match t
    case TTrue => Through
    case TRep(p) => if ToCharset(p).NoSet? && NeverMatches(d, g, p) then Through else Stops
    case TNot(p) => if NeverMatches(d, g, p) then Through else Stops
    case TAnd(p) =>
      var n := FixedLen(g, p, d);
      if n == 0 then HeadOf(d, g, p)
      else if 0 < n <= MAXBEHIND then Then(HeadOf(d, g, p), Stops)
      else Stops
    case TBehind(n, p) => if n == 0 then HeadOf(d, g, p) else Stops
    case TSeq(p1, p2) => Then(HeadOf(d, g, p1), HeadOf(d, g, p2))
    case TChoice(p1, p2) => if NeverMatches(d, g, p1) then HeadOf(d, g, p2) else Stops
    case TCall(k) => ToRule(k, true)
    case _ => Stops
  }

  ghost predicate CallAt(c: Code, q: nat, k: nat) {
    q + 2 <= |c| && c[q] == Op(IOpenCall, 0, k) && c[q + 1] == Hole
  }

  ghost predicate HeadAt(c: Code, h: Head) {
    match h
    case Through => Fwd(c, 0, |c|)
    case Stops => exists q: nat :: Fwd(c, 0, q) && Waits(c, q) && !IsOpen(c[q])
    case ToRule(k, tail) =>
      exists q: nat :: Fwd(c, 0, q) && CallAt(c, q, k) && (if tail then Fwd(c, q + 2, |c|) else GoesOn(c, q))
  }

  lemma StopsNow(c: Code)
    requires Waits(c, 0) && !IsOpen(c[0])
    ensures HeadAt(c, Stops)
  {
    FwdRefl(c, 0);
  }

  lemma GoesOnLift(c: Code, o: nat, seg: Code, q: nat)
    requires Within(c, o, seg) && GoesOn(seg, q)
    ensures GoesOn(c, o + q)
  {
    var y: nat :| q + 2 <= y && Fwd(seg, q + 2, y) && Waits(seg, y);
    FwdLift(c, o, seg, q + 2, y);
    var z: nat := o + y;
    assert c[z] == seg[y];
    assert o + (q + 2) == o + q + 2;
    assert Fwd(c, o + q + 2, z) && Waits(c, z);
  }

  /** A chain that reaches the last part of some code goes on as in that part. */
  lemma HeadSkip(c: Code, o: nat, rest: Code, h: Head)
    requires o + |rest| == |c| && Within(c, o, rest) && Fwd(c, 0, o) && HeadAt(rest, h)
    ensures HeadAt(c, h)
  {
    hide Fwd, GoesOn;
    match h
    case Through =>
      FwdLift(c, o, rest, 0, |rest|);
      FwdTrans(c, 0, o, |c|);
    case Stops =>
      var q: nat :| Fwd(rest, 0, q) && Waits(rest, q) && !IsOpen(rest[q]);
      FwdLift(c, o, rest, 0, q);
      FwdTrans(c, 0, o, o + q);
      assert c[o + q] == rest[q];
    case ToRule(k, tail) =>
      var q: nat :| Fwd(rest, 0, q) && CallAt(rest, q, k) && (if tail then Fwd(rest, q + 2, |rest|) else GoesOn(rest, q));
      FwdLift(c, o, rest, 0, q);
      FwdTrans(c, 0, o, o + q);
      assert c[o + q] == rest[q] && c[o + (q + 1)] == rest[q + 1];
      if tail { FwdLift(c, o, rest, q + 2, |rest|); } else { GoesOnLift(c, o, rest, q); }
      assert o + (q + 2) == o + q + 2;
  }

  lemma HeadThen(a: Code, b: Code, h1: Head, h2: Head)
    requires HeadAt(a, h1) && HeadAt(b, h2)
    ensures HeadAt(a + b, Then(h1, h2))
  {
    hide Fwd, GoesOn;
    var c := a + b;
    assert Within(c, 0, a) && Within(c, |a|, b);
    match h1
    case Through =>
      FwdLift(c, 0, a, 0, |a|);
      HeadSkip(c, |a|, b, h2);
    case Stops =>
      var q: nat :| Fwd(a, 0, q) && Waits(a, q) && !IsOpen(a[q]);
      FwdLift(c, 0, a, 0, q);
      assert c[q] == a[q];
    case ToRule(k, tail) =>
      var q: nat :| Fwd(a, 0, q) && CallAt(a, q, k) && (if tail then Fwd(a, q + 2, |a|) else GoesOn(a, q));
      FwdLift(c, 0, a, 0, q);
      assert c[q] == a[q] && c[q + 1] == a[q + 1];
      if !tail {
        GoesOnLift(c, 0, a, q);
      } else {
        FwdLift(c, 0, a, q + 2, |a|);
        CallThen(c, q, |a|, b, h2);
      }
  }

  /** What follows a call whose continuation is the last part of the code. */
  lemma CallThen(c: Code, q: nat, o: nat, b: Code, h2: Head)
    requires o + |b| == |c| && Within(c, o, b) && q + 2 <= o && Fwd(c, q + 2, o) && HeadAt(b, h2)
    ensures if h2.Through? then Fwd(c, q + 2, |c|) else GoesOn(c, q)
  {
    if h2.Through? {
      FwdLift(c, o, b, 0, |b|);
      FwdTrans(c, q + 2, o, |c|);
    } else {
      var y: nat :| Fwd(b, 0, y) && Waits(b, y);
      assert Waits(b, y);
      FwdLift(c, o, b, 0, y);
      FwdTrans(c, q + 2, o, o + y);
      var z: nat := o + y;
      assert c[z] == b[y];
      assert Fwd(c, q + 2, z) && Waits(c, z);
    }
  }

  lemma GenTestHead(cs: set<byte>, off: int)
    ensures var c := GenTest(cs, off);
            if cs == {} then IsLabel(c, 0, IJmp, off) else Waits(c, 0) && !IsOpen(c[0])
  {}

  /** Code behind an optional test whose jump leads to `rest`, the last part. */
  lemma TestedHead(f: First, off: nat, mid: Code, rest: Code, h: Head)
    requires f == First({}, false) && off == 2 + |mid| && HeadAt(rest, h)
    ensures HeadAt(GenTest({}, off) + mid + rest, h)
  {
    hide HeadAt;
    var c := GenTest({}, off) + mid + rest;
    GenTestHead({}, off);
    assert c[0] == GenTest({}, off)[0] && c[1] == GenTest({}, off)[1];
    FwdJump(c, 0, off);
    HeadSkip(c, off, rest, h);
  }

  lemma StopsThen(a: Code, b: Code)
    requires Waits(a, 0) && !IsOpen(a[0])
    ensures HeadAt(a + b, Stops)
  {
    assert (a + b)[0] == a[0];
    StopsNow(a + b);
  }

  lemma EmptyHead()
    ensures HeadAt([], Through)
  {
    FwdRefl([], 0);
  }

  /** The code of a pattern begins as `HeadOf` says, whatever it was generated for. */
  lemma {:induction false} HeadCode(d: nat, g: seq<Tree>, t: Tree, opt: bool, tt: Test, fl: set<byte>)
    ensures HeadAt(Gen(d, g, t, opt, tt, fl), HeadOf(d, g, t))
    decreases t
  {
    hide Gen, GenChoice, GenRep, GenNot, GenAnd, Link, GetFirst, FixedLen, HeadAt, NeverMatches;
    GenUnfolds(d, g, t, opt, tt, fl);
    match t
    case TChoice(p1, p2) => ChoiceHead(d, g, t, opt, fl);
    case TRep(_) => RepHead(d, g, t, opt, fl);
    case TNot(_) => NotHead(d, g, t);
    case TAnd(_) => AndHead(d, g, t, tt);
    case TBehind(n, p) =>
      var c := Gen(d, g, p, false, NoTest, FullSet);
      HeadCode(d, g, p, false, NoTest, FullSet);
      if n > 0 { StopsThen([Op(IBehind, n, 0)], c); } else { assert [] + c == c; }
    case TSeq(p1, p2) =>
      var fl1 := if NeedFollow(p1) then GetFirst(g, p2, fl, d).cs else FullSet;
      var tt2 := if FixedLen(g, p1, d) != 0 then NoTest else tt;
      HeadCode(d, g, p1, false, tt, fl1);
      HeadCode(d, g, p2, opt, tt2, fl);
      HeadThen(Gen(d, g, p1, false, tt, fl1), Gen(d, g, p2, opt, tt2, fl), HeadOf(d, g, p1), HeadOf(d, g, p2));
    case TCall(k) => CallHead(k);
    case TGrammar(rs) => GrammarHead(d, rs);
    case _ => LeafHead(d, g, t, opt, tt, fl);
  }

  lemma CallHead(k: nat)
    ensures HeadAt([Op(IOpenCall, 0, k), Hole], ToRule(k, true))
  {
    hide Fwd;
    var c: Code := [Op(IOpenCall, 0, k), Hole];
    FwdRefl(c, 0);
    FwdRefl(c, 2);
    assert CallAt(c, 0, k);
  }

  lemma LeafHead(d: nat, g: seq<Tree>, t: Tree, opt: bool, tt: Test, fl: set<byte>)
    requires t.TChar? || t.TSet? || t.TAny? || t.TTrue? || t.TFalse?
    ensures HeadAt(Gen(d, g, t, opt, tt, fl), HeadOf(d, g, t))
  {
    if t.TTrue? { EmptyHead(); } else { StopsNow(Gen(d, g, t, opt, tt, fl)); }
  }

  lemma {:induction false} LinkFromBefore(code: Code, i: nat, ps: seq<nat>, x: nat)
    requires x < i && x < |code|
    ensures LinkFrom(code, i, ps)[x] == code[x]
    decreases |code| - i
  {
    hide RetAt;
    if i < |code| && code[i].Op? {
      if IsOpen(code[i]) && i + 1 < |code| && code[i].key < |ps| {
        LinkFromBefore(CloseOne(code, i, ps[code[i].key]), i + 2, ps, x);
      } else {
        SizePositive(code[i].op);
        LinkFromBefore(code, i + SizeI(code[i].op), ps, x);
      }
    }
  }

  lemma GrammarHead(d: nat, rs: seq<Tree>)
    ensures HeadAt(Link(RawGrammar(d, rs), Positions(d, rs, rs, 4)), Stops)
  {
    hide LinkFrom, GenRules, HeadAt;
    var raw := RawGrammar(d, rs);
    assert raw[0] == I(ICall);
    LinkFromBefore(raw, 4, Positions(d, rs, rs, 4), 0);
    StopsNow(Link(raw, Positions(d, rs, rs, 4)));
  }

  lemma {:induction false} ChoiceHead(d: nat, g: seq<Tree>, t: Tree, opt: bool, fl: set<byte>)
    requires t.TChoice?
    ensures HeadAt(GenChoice(d, g, t, opt, fl), HeadOf(d, g, t))
    decreases t, 0
  {
    hide Gen, GetFirst, HeadFail, FixedLen, HeadAt, CharsetType, GenTest, TestLen;
    var p1, p2 := t.p1, t.p2;
    var f1 := GetFirst(g, p1, FullSet, d);
    var c2 := Gen(d, g, p2, opt, NoTest, fl);
    if HeadFail(g, p1, d) { HeadFailNotEmpty(g, p1, FullSet, d); }
    if ByHead(d, g, p1, p2, fl) {
      var c1 := Gen(d, g, p1, false, TestOf(f1.cs), fl);
      var jmp := if p2.TTrue? then [] else Jump(IJmp, 2 + |c2|);
      var off := TestLen(f1.cs) + |c1| + |jmp|;
      GenTestHead(f1.cs, off);
      assert GenTest(f1.cs, off) + c1 + jmp + c2 == GenTest(f1.cs, off) + (c1 + jmp) + c2;
      if f1.cs == {} {
        HeadCode(d, g, p2, opt, NoTest, fl);
        EmptyTestLen();
        TestedHead(f1, off, c1 + jmp, c2, HeadOf(d, g, p2));
      } else {
        StopsThen(GenTest(f1.cs, off), c1 + jmp + c2);
        assert GenTest(f1.cs, off) + (c1 + jmp + c2) == GenTest(f1.cs, off) + c1 + jmp + c2;
      }
    } else if opt && p2.TTrue? {
      StopsThen(Jump(IPartialCommit, 2), Gen(d, g, p1, true, NoTest, FullSet));
    } else {
      var c1 := Gen(d, g, p1, p2.TTrue?, TestOfIf(f1), FullSet);
      var test := GenTestIf(f1, TestIfLen(f1) + 4 + |c1|);
      var rest := Jump(IChoice, 4 + |c1|) + c1 + Jump(ICommit, 2 + |c2|) + c2;
      assert test + Jump(IChoice, 4 + |c1|) + c1 + Jump(ICommit, 2 + |c2|) + c2 == test + rest;
      TestIfStops(f1, TestIfLen(f1) + 4 + |c1|, rest);
    }
  }

  lemma EmptyTestLen()
    ensures TestLen({}) == 2
  {}

  lemma TestIfStops(f: First, off: int, rest: Code)
    requires Waits(rest, 0) && !IsOpen(rest[0]) && (f.cs == {} ==> f.empty)
    ensures HeadAt(GenTestIf(f, off) + rest, Stops)
  {
    if f.empty {
      assert GenTestIf(f, off) + rest == rest;
      StopsNow(rest);
    } else {
      GenTestHead(f.cs, off);
      StopsThen(GenTest(f.cs, off), rest);
    }
  }

  lemma {:induction false} RepHead(d: nat, g: seq<Tree>, t: Tree, opt: bool, fl: set<byte>)
    requires t.TRep?
    ensures HeadAt(GenRep(d, g, t, opt, fl), HeadOf(d, g, t))
  {
    hide Gen, GetFirst, HeadFail, FixedLen, HeadAt, CharsetType, GenTest, TestLen;
    var p := t.p;
    var f := GetFirst(g, p, FullSet, d);
    if HeadFail(g, p, d) { HeadFailNotEmpty(g, p, FullSet, d); }
    if ToCharset(p).YesSet? {
      StopsThen([I(ISpan)], SetBuf(ToCharset(p).cs));
    } else if ByHeadRep(d, g, p, fl) {
      var c := Gen(d, g, p, false, TestOf(f.cs), FullSet);
      var n := TestLen(f.cs) + |c|;
      GenTestHead(f.cs, n + 2);
      assert GenTest(f.cs, n + 2) + c + Jump(IJmp, -n) == GenTest(f.cs, n + 2) + (c + Jump(IJmp, -n));
      if f.cs == {} {
        EmptyHead();
        EmptyTestLen();
        TestedHead(f, n + 2, c + Jump(IJmp, -n), [], Through);
        assert GenTest({}, n + 2) + (c + Jump(IJmp, -n)) + [] == GenTest({}, n + 2) + (c + Jump(IJmp, -n));
      } else {
        StopsThen(GenTest(f.cs, n + 2), c + Jump(IJmp, -n));
      }
    } else {
      var c := Gen(d, g, p, false, NoTest, FullSet);
      var enter := if opt then Jump(IPartialCommit, 2) else Jump(IChoice, 4 + |c|);
      var test := GenTestIf(f, TestIfLen(f) + 4 + |c|);
      assert test + enter + c + Jump(IPartialCommit, -|c|) == test + (enter + c + Jump(IPartialCommit, -|c|));
      TestIfStops(f, TestIfLen(f) + 4 + |c|, enter + c + Jump(IPartialCommit, -|c|));
    }
  }

  lemma NotHead(d: nat, g: seq<Tree>, t: Tree)
    requires t.TNot?
    ensures HeadAt(GenNot(d, g, t), HeadOf(d, g, t))
  {
    hide Gen, GetFirst, HeadFail, FixedLen, HeadAt, CharsetType, GenTest, TestLen;
    var f := GetFirst(g, t.p, FullSet, d);
    var c := Gen(d, g, t.p, false, NoTest, FullSet);
    var rest := if HeadFail(g, t.p, d) then [I(IFail)] else Jump(IChoice, 3 + |c|) + c + [I(IFailTwice)];
    var off := TestIfLen(f) + |rest|;
    var test := GenTestIf(f, off);
    assert test + Jump(IChoice, 3 + |c|) + c + [I(IFailTwice)] == test + (Jump(IChoice, 3 + |c|) + c + [I(IFailTwice)]);
    if f == First({}, false) {
      EmptyHead();
      EmptyTestLen();
      TestedHead(f, off, rest, [], Through);
      assert GenTest({}, off) + rest + [] == test + rest;
    } else {
      TestIfStops(f, off, rest);
    }
  }

  lemma {:induction false} AndHead(d: nat, g: seq<Tree>, t: Tree, tt: Test)
    requires t.TAnd?
    ensures HeadAt(GenAnd(d, g, t, tt), HeadOf(d, g, t))
    decreases t, 0
  {
    hide Gen, FixedLen, HeadAt, GetFirst;
    var n := FixedLen(g, t.p, d);
    var c := Gen(d, g, t.p, false, tt, FullSet);
    HeadCode(d, g, t.p, false, tt, FullSet);
    if n == 0 {
      assert c + [] == c;
    } else if 0 < n <= MAXBEHIND {
      StopsNow([Op(IBehind, n, 0)]);
      HeadThen(c, [Op(IBehind, n, 0)], HeadOf(d, g, t.p), Stops);
    } else {
      StopsThen(Jump(IChoice, 4 + |c|), c + Jump(IBackCommit, 3) + [I(IFail)]);
      assert Jump(IChoice, 4 + |c|) + (c + Jump(IBackCommit, 3) + [I(IFail)]) == Jump(IChoice, 4 + |c|) + c + Jump(IBackCommit, 3) + [I(IFail)];
    }
  }
}
