/**
 * What stands behind the calls. When the calls of a grammar are closed one after the other, the
 * chain of jumps behind each of them ends, whatever becomes of the calls closed before it.
 */
module LpegAfter {
  import opened LpegTree
  import opened LpegAnalysis
  import opened LpegVm
  import opened LpegCodegen
  import opened LpegLink
  import opened LpegHead
  import opened LpegCircle

  /** Every jump has a label inside the code or at its end. */
  ghost predicate Targets(c: Code) {
    forall x :: IsOp(c, x, IJmp) ==> HasOff(c, x) && 0 <= Target(c, x) <= |c|
  }

  predicate Rests(c: Code, y: int) { 0 <= y < |c| && c[y].Op? && c[y].op != IJmp }

  /** The chain of jumps from `x` runs to the end of the code or stops, and not at an earlier call. */
  ghost predicate Ended(c: Code, x: nat) {
    Fwd(c, x, |c|) || exists y: nat :: Fwd(c, x, y) && Rests(c, y) && (x <= y || !IsOpen(c[y]))
  }

  ghost predicate AfterCalls(c: Code) {
    forall x: nat :: x < |c| && IsOpen(c[x]) ==> x + 2 <= |c| && Ended(c, x + 2)
  }

  ghost predicate Orderly(c: Code) { Targets(c) && AfterCalls(c) }

  lemma OrderlyPlain(c: Code)
    requires forall x :: 0 <= x < |c| ==> !IsOp(c, x, IJmp) && !IsOpen(c[x])
    ensures Orderly(c)
  {}

  lemma TargetsOf(c: Code, o: nat, seg: Code, x: int)
    requires Targets(seg) && Within(c, o, seg) && 0 <= x < |seg| && IsOp(c, o + x, IJmp)
    ensures HasOff(c, o + x) && 0 <= Target(c, o + x) <= |c|
  {
    assert IsOp(seg, x, IJmp) && HasOff(seg, x);
    assert c[o + (x + 1)] == seg[x + 1];
  }

  lemma EndedLift(c: Code, o: nat, b: Code, x: nat)
    requires o + |b| == |c| && Within(c, o, b) && Ended(b, x)
    ensures Ended(c, o + x)
  {
    if Fwd(b, x, |b|) {
      FwdLift(c, o, b, x, |b|);
    } else {
      var y: nat :| Fwd(b, x, y) && Rests(b, y) && (x <= y || !IsOpen(b[y]));
      assert Rests(b, y);
      FwdLift(c, o, b, x, y);
      var z: nat := o + y;
      assert c[z] == b[y];
      assert Fwd(c, o + x, z) && Rests(c, z);
    }
  }

  lemma EndedThen(a: Code, b: Code, x: nat, h: Head)
    requires x <= |a| && Ended(a, x) && HeadAt(b, h)
    ensures Ended(a + b, x)
  {
    hide Fwd, GoesOn;
    var c := a + b;
    assert Within(c, 0, a) && Within(c, |a|, b);
    if Fwd(a, x, |a|) {
      FwdLift(c, 0, a, x, |a|);
      if h.Through? {
        FwdLift(c, |a|, b, 0, |b|);
        FwdTrans(c, x, |a|, |c|);
      } else {
        var y: nat :| Fwd(b, 0, y) && Waits(b, y);
        assert Waits(b, y);
        FwdLift(c, |a|, b, 0, y);
        FwdTrans(c, x, |a|, |a| + y);
        var z: nat := |a| + y;
        assert c[z] == b[y];
        assert Fwd(c, x, z) && Rests(c, z);
      }
    } else {
      var y: nat :| Fwd(a, x, y) && Rests(a, y) && (x <= y || !IsOpen(a[y]));
      assert Rests(a, y);
      FwdLift(c, 0, a, x, y);
      assert c[y] == a[y];
      assert Fwd(c, x, y) && Rests(c, y);
    }
  }

  lemma OrderlyConcat(a: Code, b: Code, h: Head)
    requires Orderly(a) && Orderly(b) && HeadAt(b, h)
    ensures Orderly(a + b)
  {
    hide Ended, HeadAt;
    var c := a + b;
    assert Within(c, 0, a) && Within(c, |a|, b);
    forall x | IsOp(c, x, IJmp) ensures HasOff(c, x) && 0 <= Target(c, x) <= |c| {
      if x < |a| { TargetsOf(c, 0, a, x); } else { TargetsOf(c, |a|, b, x - |a|); }
    }
    forall x: nat | x < |c| && IsOpen(c[x]) ensures x + 2 <= |c| && Ended(c, x + 2) {
      if x < |a| {
        assert IsOpen(a[x]);
        EndedThen(a, b, x + 2, h);
      } else {
        var y: nat := x - |a|;
        assert IsOpen(b[y]);
        EndedLift(c, |a|, b, y + 2);
        assert |a| + (y + 2) == x + 2;
      }
    }
  }

  /** Code without calls in front. */
  lemma OrderlyBehind(a: Code, b: Code)
    requires Orderly(b) && forall x :: 0 <= x < |a| ==> !IsOpen(a[x])
    requires forall x :: 0 <= x < |a| && IsOp(a, x, IJmp) ==> HasOff(a, x) && 0 <= Target(a, x) <= |a| + |b|
    ensures Orderly(a + b)
  {
    hide Ended;
    var c := a + b;
    assert Within(c, |a|, b);
    forall x | IsOp(c, x, IJmp) ensures HasOff(c, x) && 0 <= Target(c, x) <= |c| {
      if x < |a| { assert IsOp(a, x, IJmp) && c[x + 1] == a[x + 1]; } else { TargetsOf(c, |a|, b, x - |a|); }
    }
    forall x: nat | x < |c| && IsOpen(c[x]) ensures x + 2 <= |c| && Ended(c, x + 2) {
      var y: nat := x - |a|;
      assert IsOpen(b[y]);
      EndedLift(c, |a|, b, y + 2);
      assert |a| + (y + 2) == x + 2;
    }
  }

  lemma OrderlyTest(cs: set<byte>, off: nat, rest: Code)
    requires Orderly(rest) && off <= TestLen(cs) + |rest|
    ensures Orderly(GenTest(cs, off) + rest)
  {
    hide Orderly;
    TestPlain(cs, off);
    OrderlyBehind(GenTest(cs, off), rest);
  }

  lemma TestPlain(cs: set<byte>, off: nat)
    ensures var a := GenTest(cs, off);
            (forall x :: 0 <= x < |a| ==> !IsOpen(a[x]))
            && (forall x :: 0 <= x < |a| && IsOp(a, x, IJmp) ==> HasOff(a, x) && Target(a, x) == off)
  {}

  lemma OrderlyTestIf(f: First, off: nat, rest: Code)
    requires Orderly(rest) && off <= TestIfLen(f) + |rest|
    ensures Orderly(GenTestIf(f, off) + rest)
  {
    hide Orderly;
    if f.empty { assert GenTestIf(f, off) + rest == rest; } else { OrderlyTest(f.cs, off, rest); }
  }

  /** Code in front of an instruction that is no jump. */
  lemma OrderlyStop(a: Code, op: Opcode, b: Code)
    requires Orderly(a) && Orderly(b) && b != [] && b[0].Op? && b[0].op == op
    requires op != IJmp && op != IOpenCall
    ensures Orderly(a + b)
  {
    hide Fwd;
    var c := a + b;
    assert Within(c, 0, a) && Within(c, |a|, b);
    forall x | IsOp(c, x, IJmp) ensures HasOff(c, x) && 0 <= Target(c, x) <= |c| {
      if x < |a| { TargetsOf(c, 0, a, x); } else { TargetsOf(c, |a|, b, x - |a|); }
    }
    forall x: nat | x < |c| && IsOpen(c[x]) ensures x + 2 <= |c| && Ended(c, x + 2) {
      if x < |a| {
        assert IsOpen(a[x]);
        StopEnds(a, b, x + 2);
      } else {
        var y: nat := x - |a|;
        assert IsOpen(b[y]);
        EndedLift(c, |a|, b, y + 2);
        assert |a| + (y + 2) == x + 2;
      }
    }
  }

  lemma StopEnds(a: Code, b: Code, x: nat)
    requires x <= |a| && Ended(a, x) && b != [] && b[0].Op? && b[0].op != IJmp && b[0].op != IOpenCall
    ensures Ended(a + b, x)
  {
    hide Fwd;
    var c := a + b;
    assert Within(c, 0, a);
    if Fwd(a, x, |a|) {
      FwdLift(c, 0, a, x, |a|);
      assert c[|a|] == b[0];
      assert Rests(c, |a|);
    } else {
      var y: nat :| Fwd(a, x, y) && Rests(a, y) && (x <= y || !IsOpen(a[y]));
      assert Rests(a, y);
      FwdLift(c, 0, a, x, y);
      assert c[y] == a[y];
      assert Fwd(c, x, y) && Rests(c, y);
    }
  }

  lemma EmptyOrderly()
    ensures Orderly([])
  {}

  lemma JumpOrderly(op: Opcode, off: int)
    requires op != IJmp && op != IOpenCall
    ensures Orderly(Jump(op, off))
  {
    OrderlyPlain(Jump(op, off));
  }

  lemma SimpleOrderly(x: Slot)
    requires x.Op? && x.op != IJmp && x.op != IOpenCall
    ensures Orderly([x])
  {
    OrderlyPlain([x]);
  }

  /** A test without calls in front of a loop, which jumps to the end of it or not at all. */
  ghost predicate LoopTest(test: Code, end: int) {
    && test != [] && (forall x :: 0 <= x < |test| ==> !IsOpen(test[x]))
    && (forall x :: IsOp(test, x, IJmp) ==> HasOff(test, x) && Target(test, x) == end)
    && (IsLabel(test, 0, IJmp, end) || Rests(test, 0))
  }

  lemma LoopTestOf(cs: set<byte>, end: nat)
    ensures LoopTest(GenTest(cs, end), end)
  {
    TestPlain(cs, end);
    GenTestHead(cs, end);
  }

  /** The loop that jumps back to its own test. */
  lemma LoopOrderly(cs: set<byte>, body: Code)
    requires Orderly(body)
    ensures var n := TestLen(cs) + |body|; Orderly(GenTest(cs, n + 2) + body + Jump(IJmp, -n))
  {
    hide Orderly, GenTest, LoopTest;
    var n := TestLen(cs) + |body|;
    LoopTestOf(cs, n + 2);
    LoopInOrder(GenTest(cs, n + 2), body, n);
  }

  lemma LoopInOrder(test: Code, body: Code, n: int)
    requires Orderly(body) && n == |test| + |body| && LoopTest(test, n + 2)
    ensures Orderly(test + body + Jump(IJmp, -n))
  {
    hide Ended, Fwd;
    var c := test + body + Jump(IJmp, -n);
    var t := |test|;
    LoopSlots(test, body, n);
    forall x | IsOp(c, x, IJmp) ensures HasOff(c, x) && 0 <= Target(c, x) <= |c| {
      if x < t { assert IsOp(test, x, IJmp); } else if x < n { TargetsOf(c, t, body, x - t); }
    }
    forall x: nat | x < |c| && IsOpen(c[x]) ensures x + 2 <= |c| && Ended(c, x + 2) {
      assert t <= x < n;
      var y: nat := x - t;
      assert IsOpen(body[y]);
      LoopBack(test, body, n, y + 2);
      assert t + (y + 2) == x + 2;
    }
  }

  lemma LoopSlots(test: Code, body: Code, n: int)
    requires n == |test| + |body|
    ensures var c := test + body + Jump(IJmp, -n);
            |c| == n + 2 && Within(c, |test|, body) && c[n] == I(IJmp) && c[n + 1] == Off(-n)
            && forall x :: 0 <= x < |test| ==> c[x] == test[x]
  {}

  lemma LoopBack(test: Code, body: Code, n: int, x: nat)
    requires n == |test| + |body| && LoopTest(test, n + 2) && x <= |body| && Ended(body, x)
    ensures Ended(test + body + Jump(IJmp, -n), |test| + x)
  {
    hide Fwd;
    var c := test + body + Jump(IJmp, -n);
    var t := |test|;
    LoopSlots(test, body, n);
    if Fwd(body, x, |body|) {
      FwdLift(c, t, body, x, |body|);
      FwdJump(c, n, 0);
      FwdTrans(c, t + x, n, 0);
      if IsLabel(test, 0, IJmp, n + 2) {
        FwdJump(c, 0, n + 2);
        FwdTrans(c, t + x, 0, n + 2);
      } else {
        assert Rests(c, 0);
      }
    } else {
      var y: nat :| Fwd(body, x, y) && Rests(body, y) && (x <= y || !IsOpen(body[y]));
      assert Rests(body, y);
      FwdLift(c, t, body, x, y);
      var z: nat := t + y;
      assert c[z] == body[y];
      assert Fwd(c, t + x, z) && Rests(c, z);
    }
  }

  /** Calls that were closed before leave the chain behind a call as it was. */
  lemma EndedSettles(raw: Code, cur: Code, x: nat)
    requires SameClosed(raw, cur) && Ended(raw, x) && forall y :: x <= y < |raw| ==> cur[y] == raw[y]
    ensures Settles(cur, x)
  {
    if Fwd(raw, x, |raw|) {
      FwdSame(raw, cur, x, |raw|);
      NotJump(cur, |raw|);
      FwdSettles(cur, x, |raw|);
    } else {
      var y: nat :| Fwd(raw, x, y) && Rests(raw, y) && (x <= y || !IsOpen(raw[y]));
      assert Rests(raw, y);
      FwdSame(raw, cur, x, y);
      assert cur[y] == raw[y];
      NotJump(cur, y);
      FwdSettles(cur, x, y);
    }
  }

  // ------------------------------------------------------------------ emitted code

  /** Emitted code is in order; no circle of rules can disturb that. */
  lemma {:induction false} GenOrderly(d: nat, g: seq<Tree>, t: Tree, opt: bool, tt: Test, fl: set<byte>)
    requires WellFormed(d, g, t)
    ensures Orderly(Gen(d, g, t, opt, tt, fl))
    decreases t, 1
  {
    hide Gen, GenChoice, GenRep, GenNot, GenAnd, GrammarCode, GetFirst, FixedLen, Orderly, HeadAt;
    GenUnfolds(d, g, t, opt, tt, fl);
    match t
    case TChoice(_, _) => ChoiceOrderly(d, g, t, opt, fl);
    case TRep(_) => RepOrderly(d, g, t, opt, fl);
    case TBehind(k, p) =>
      var c := Gen(d, g, p, false, NoTest, FullSet);
      GenOrderly(d, g, p, false, NoTest, FullSet);
      if k > 0 {
        SimpleOrderly(Op(IBehind, k, 0));
        HeadCode(d, g, p, false, NoTest, FullSet);
        OrderlyConcat([Op(IBehind, k, 0)], c, HeadOf(d, g, p));
      } else {
        assert [] + c == c;
      }
    case TNot(_) => NotOrderly(d, g, t);
    case TAnd(_) => AndOrderly(d, g, t, tt);
    case TSeq(p1, p2) =>
      var fl1 := if NeedFollow(p1) then GetFirst(g, p2, fl, d).cs else FullSet;
      var tt2 := if FixedLen(g, p1, d) != 0 then NoTest else tt;
      GenOrderly(d, g, p1, false, tt, fl1);
      GenOrderly(d, g, p2, opt, tt2, fl);
      HeadCode(d, g, p2, opt, tt2, fl);
      OrderlyConcat(Gen(d, g, p1, false, tt, fl1), Gen(d, g, p2, opt, tt2, fl), HeadOf(d, g, p2));
    case TCall(k) => CallOrderly(k);
    case TGrammar(rs) => GrammarOrderly(d, rs);
    case _ => LeafOrderly(d, g, t, opt, tt, fl);
  }

  lemma LeafOrderly(d: nat, g: seq<Tree>, t: Tree, opt: bool, tt: Test, fl: set<byte>)
    requires t.TChar? || t.TSet? || t.TAny? || t.TTrue? || t.TFalse?
    ensures Orderly(Gen(d, g, t, opt, tt, fl))
  {
    OrderlyPlain(Gen(d, g, t, opt, tt, fl));
  }

  lemma CallOrderly(k: nat)
    ensures Orderly([Op(IOpenCall, 0, k), Hole])
  {
    FwdRefl([Op(IOpenCall, 0, k), Hole], 2);
  }

  lemma {:induction false} ChoiceOrderly(d: nat, g: seq<Tree>, t: Tree, opt: bool, fl: set<byte>)
    requires t.TChoice? && WellFormed(d, g, t)
    ensures Orderly(GenChoice(d, g, t, opt, fl))
    decreases t, 0
  {
    hide Gen, GetFirst, HeadFail, FixedLen, CheckAux, Orderly, CharsetType, GenTest, TestLen, TestOf, ByHead, HeadAt, HeadOf;
    var p1, p2 := t.p1, t.p2;
    var f1 := GetFirst(g, p1, FullSet, d);
    var c2 := Gen(d, g, p2, opt, NoTest, fl);
    GenOrderly(d, g, p2, opt, NoTest, fl);
    HeadCode(d, g, p2, opt, NoTest, fl);
    if ByHead(d, g, p1, p2, fl) {
      var c1 := Gen(d, g, p1, false, TestOf(f1.cs), fl);
      var jmp := if p2.TTrue? then [] else Jump(IJmp, 2 + |c2|);
      GenOrderly(d, g, p1, false, TestOf(f1.cs), fl);
      var h := OverJump(c2, HeadOf(d, g, p2), !p2.TTrue?);
      OrderlyConcat(c1, jmp + c2, h);
      OrderlyTest(f1.cs, TestLen(f1.cs) + |c1| + |jmp|, c1 + (jmp + c2));
      var head := GenTest(f1.cs, TestLen(f1.cs) + |c1| + |jmp|);
      assert head + c1 + jmp + c2 == head + (c1 + (jmp + c2));
    } else if opt && p2.TTrue? {
      GenOrderly(d, g, p1, true, NoTest, FullSet);
      HeadCode(d, g, p1, true, NoTest, FullSet);
      JumpOrderly(IPartialCommit, 2);
      OrderlyConcat(Jump(IPartialCommit, 2), Gen(d, g, p1, true, NoTest, FullSet), HeadOf(d, g, p1));
    } else {
      var c1 := Gen(d, g, p1, p2.TTrue?, TestOfIf(f1), FullSet);
      GenOrderly(d, g, p1, p2.TTrue?, TestOfIf(f1), FullSet);
      HeadCode(d, g, p1, p2.TTrue?, TestOfIf(f1), FullSet);
      JumpOrderly(IChoice, 4 + |c1|);
      JumpOrderly(ICommit, 2 + |c2|);
      OrderlyConcat(Jump(ICommit, 2 + |c2|), c2, HeadOf(d, g, p2));
      OrderlyStop(c1, ICommit, Jump(ICommit, 2 + |c2|) + c2);
      NoCallIn(IChoice, 4 + |c1|);
      OrderlyBehind(Jump(IChoice, 4 + |c1|), c1 + (Jump(ICommit, 2 + |c2|) + c2));
      var rest := Jump(IChoice, 4 + |c1|) + (c1 + (Jump(ICommit, 2 + |c2|) + c2));
      var head := GenTestIf(f1, TestIfLen(f1) + 4 + |c1|);
      OrderlyTestIf(f1, TestIfLen(f1) + 4 + |c1|, rest);
      assert head + Jump(IChoice, 4 + |c1|) + c1 + Jump(ICommit, 2 + |c2|) + c2 == head + rest;
    }
  }

  lemma NoCallIn(op: Opcode, off: int)
    requires op != IJmp && op != IOpenCall
    ensures var a := Jump(op, off); (forall x :: 0 <= x < |a| ==> !IsOpen(a[x])) && forall x :: !IsOp(a, x, IJmp)
  {}

  /** The second alternative, behind the jump over it. */
  lemma OverJump(c2: Code, h2: Head, jumps: bool) returns (h: Head)
    requires Orderly(c2) && HeadAt(c2, h2)
    ensures var jmp := if jumps then Jump(IJmp, 2 + |c2|) else []; Orderly(jmp + c2) && HeadAt(jmp + c2, h)
  {
    hide Orderly;
    h := h2;
    if jumps {
      h := Through;
      var c := Jump(IJmp, 2 + |c2|) + c2;
      assert IsLabel(c, 0, IJmp, |c|);
      FwdJump(c, 0, |c|);
      OrderlyBehind(Jump(IJmp, 2 + |c2|), c2);
    } else {
      assert [] + c2 == c2;
    }
  }

  lemma {:induction false} RepOrderly(d: nat, g: seq<Tree>, t: Tree, opt: bool, fl: set<byte>)
    requires t.TRep? && WellFormed(d, g, t)
    ensures Orderly(GenRep(d, g, t, opt, fl))
    decreases t, 0
  {
    hide Gen, GetFirst, HeadFail, FixedLen, CheckAux, Orderly, CharsetType, GenTest, TestLen, TestOf, ByHeadRep;
    var p := t.p;
    var f := GetFirst(g, p, FullSet, d);
    if ToCharset(p).YesSet? {
      SpanOrderly(ToCharset(p).cs);
    } else if ByHeadRep(d, g, p, fl) {
      GenOrderly(d, g, p, false, TestOf(f.cs), FullSet);
      LoopOrderly(f.cs, Gen(d, g, p, false, TestOf(f.cs), FullSet));
    } else {
      var c := Gen(d, g, p, false, NoTest, FullSet);
      var enter := if opt then Jump(IPartialCommit, 2) else Jump(IChoice, 4 + |c|);
      GenOrderly(d, g, p, false, NoTest, FullSet);
      JumpOrderly(IPartialCommit, -|c|);
      OrderlyStop(c, IPartialCommit, Jump(IPartialCommit, -|c|));
      NoCallIn(IPartialCommit, 2);
      NoCallIn(IChoice, 4 + |c|);
      OrderlyBehind(enter, c + Jump(IPartialCommit, -|c|));
      var head := GenTestIf(f, TestIfLen(f) + 4 + |c|);
      OrderlyTestIf(f, TestIfLen(f) + 4 + |c|, enter + (c + Jump(IPartialCommit, -|c|)));
      assert head + enter + c + Jump(IPartialCommit, -|c|) == head + (enter + (c + Jump(IPartialCommit, -|c|)));
    }
  }

  lemma SpanOrderly(cs: set<byte>)
    ensures Orderly([I(ISpan)] + SetBuf(cs))
  {
    OrderlyPlain([I(ISpan)] + SetBuf(cs));
  }

  lemma {:induction false} NotOrderly(d: nat, g: seq<Tree>, t: Tree)
    requires t.TNot? && WellFormed(d, g, t)
    ensures Orderly(GenNot(d, g, t))
    decreases t, 0
  {
    hide Gen, GetFirst, HeadFail, FixedLen, CheckAux, Orderly, CharsetType, GenTest, TestLen;
    var f := GetFirst(g, t.p, FullSet, d);
    if HeadFail(g, t.p, d) {
      SimpleOrderly(I(IFail));
      OrderlyTestIf(f, TestIfLen(f) + 1, [I(IFail)]);
    } else {
      var c := Gen(d, g, t.p, false, NoTest, FullSet);
      GenOrderly(d, g, t.p, false, NoTest, FullSet);
      SimpleOrderly(I(IFailTwice));
      OrderlyStop(c, IFailTwice, [I(IFailTwice)]);
      NoCallIn(IChoice, 3 + |c|);
      OrderlyBehind(Jump(IChoice, 3 + |c|), c + [I(IFailTwice)]);
      var head := GenTestIf(f, TestIfLen(f) + 3 + |c|);
      OrderlyTestIf(f, TestIfLen(f) + 3 + |c|, Jump(IChoice, 3 + |c|) + (c + [I(IFailTwice)]));
      assert head + Jump(IChoice, 3 + |c|) + c + [I(IFailTwice)] == head + (Jump(IChoice, 3 + |c|) + (c + [I(IFailTwice)]));
    }
  }

  lemma {:induction false} AndOrderly(d: nat, g: seq<Tree>, t: Tree, tt: Test)
    requires t.TAnd? && WellFormed(d, g, t)
    ensures Orderly(GenAnd(d, g, t, tt))
    decreases t, 0
  {
    hide Gen, FixedLen, Orderly;
    var n := FixedLen(g, t.p, d);
    var c := Gen(d, g, t.p, false, tt, FullSet);
    GenOrderly(d, g, t.p, false, tt, FullSet);
    if n == 0 {
      assert c + [] == c;
    } else if 0 < n <= MAXBEHIND {
      SimpleOrderly(Op(IBehind, n, 0));
      OrderlyStop(c, IBehind, [Op(IBehind, n, 0)]);
    } else {
      JumpOrderly(IBackCommit, 3);
      SimpleOrderly(I(IFail));
      OrderlyStop(Jump(IBackCommit, 3), IFail, [I(IFail)]);
      OrderlyStop(c, IBackCommit, Jump(IBackCommit, 3) + [I(IFail)]);
      NoCallIn(IChoice, 4 + |c|);
      OrderlyBehind(Jump(IChoice, 4 + |c|), c + (Jump(IBackCommit, 3) + [I(IFail)]));
      assert Jump(IChoice, 4 + |c|) + c + Jump(IBackCommit, 3) + [I(IFail)] == Jump(IChoice, 4 + |c|) + (c + (Jump(IBackCommit, 3) + [I(IFail)]));
    }
  }

  lemma {:induction false} RulesOrderly(d: nat, g: seq<Tree>, rs: seq<Tree>)
    requires forall k :: 0 <= k < |rs| ==> WellFormed(d, g, rs[k])
    ensures Orderly(GenRules(d, g, rs))
    decreases rs, 2
  {
    hide Gen, FixedLen, CheckAux, Orderly;
    if rs == [] {
      EmptyOrderly();
    } else {
      var c, rest := Gen(d, g, rs[0], false, NoTest, FullSet), GenRules(d, g, rs[1..]);
      GenOrderly(d, g, rs[0], false, NoTest, FullSet);
      RulesOrderly(d, g, rs[1..]);
      OrderlyBehind([I(IRet)], rest);
      OrderlyStop(c, IRet, [I(IRet)] + rest);
      assert c + [I(IRet)] + rest == c + ([I(IRet)] + rest);
    }
  }

  /** The rules with their calls still open. */
  lemma RawOrderly(d: nat, rs: seq<Tree>)
    requires forall k :: 0 <= k < |rs| ==> WellFormed(d, rs, rs[k])
    ensures Orderly(RawGrammar(d, rs))
    decreases rs, 3
  {
    hide Gen, GenRules, FixedLen, CheckAux, Orderly;
    RulesOrderly(d, rs, rs);
    var body := GenRules(d, rs, rs);
    OrderlyBehind(Jump(IJmp, 2 + |body|), body);
    NoCallIn(ICall, 4);
    OrderlyBehind(Jump(ICall, 4), Jump(IJmp, 2 + |body|) + body);
    assert Jump(ICall, 4) + Jump(IJmp, 2 + |body|) + body == Jump(ICall, 4) + (Jump(IJmp, 2 + |body|) + body);
  }

  /** A closed grammar has no call left that could be a tail call of something else. */
  lemma GrammarOrderly(d: nat, rs: seq<Tree>)
    requires forall k :: 0 <= k < |rs| ==> WellFormed(d, rs, rs[k])
    ensures Orderly(GrammarCode(d, rs))
    decreases rs, 4
  {
    hide Gen, FixedLen, CheckAux, LinkFrom, Shape, RawGrammar, Positions, Ended;
    var raw, c, ps := RawGrammar(d, rs), GrammarCode(d, rs), Positions(d, rs, rs, 4);
    RawShape(d, rs);
    UsedBelow(rs);
    LinkFromResolves(raw, 4, ps, UsedRules(rs));
    RawOrderly(d, rs);
    forall x | IsOp(c, x, IJmp) ensures HasOff(c, x) && 0 <= Target(c, x) <= |c| {
      if IsOpen(raw[x]) {
        assert Resolved(c, x, ps[raw[x].key]);
        RuleStarts(d, rs, raw[x].key);
      } else {
        HoleOrSame(raw, c, UsedRules(rs), x);
        assert IsOp(raw, x, IJmp) && HasOff(raw, x);
      }
    }
  }

  lemma HoleOrSame(raw: Code, c: Code, ks: set<nat>, x: int)
    requires SameClosed(raw, c) && Shape(raw, ks) && IsOp(c, x, IJmp) && !IsOpen(raw[x])
    requires forall y :: 0 <= y < |raw| && IsOpen(raw[y]) ==> HasOff(c, y)
    ensures c[x] == raw[x]
  {
    assert x > 0 && IsOpen(raw[x - 1]) ==> HasOff(c, x - 1);
  }
}
