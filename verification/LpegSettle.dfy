/**
 * Chains of jumps end: the compiler's search for a final target always comes back.
 */
module LpegSettle {
  import opened LpegTree
  import opened LpegAnalysis
  import opened LpegVm
  import opened LpegCodegen
  import opened LpegLink
  import opened LpegHead
  import opened LpegCircle
  import opened LpegAfter

  /** Every jump has a label inside the code (or at its end), and every chain of jumps ends. */
  ghost predicate Settled(c: Code) { Targets(c) && forall x :: 0 <= x <= |c| ==> Settles(c, x) }

  lemma {:induction false} FollowInRange(c: Code, x: int, n: nat)
    requires Targets(c)
    requires 0 <= x <= |c|
    ensures 0 <= Follow(c, x, n) <= |c|
    decreases n
  {
    if n > 0 && IsOp(c, x, IJmp) { FollowInRange(c, Target(c, x), n - 1); }
  }

  /** Where a chain ends inside a settled part, it ends in the whole too, or runs to the part's end. */
  lemma LiftSettles(c: Code, o: nat, seg: Code, x: nat)
    requires Within(c, o, seg) && Settled(seg) && x <= |seg| && Settles(c, o + |seg|)
    ensures Settles(c, o + x)
  {
    assert Settles(seg, x);
    var n: nat :| !IsOp(seg, Follow(seg, x, n), IJmp);
    FollowInRange(seg, x, n);
    var m := FollowLift(c, o, seg, x, n);
    var q := Follow(seg, x, n);
    if q < |seg| {
      assert c[o + q] == seg[q];
    } else {
      SettlesVia(c, o + x, m);
    }
  }

  lemma AtEndSettles(c: Code)
    ensures Settles(c, |c|)
  {
    assert !IsOp(c, Follow(c, |c|, 0), IJmp);
  }

  lemma NoJump(c: Code)
    requires forall x :: 0 <= x < |c| ==> !IsOp(c, x, IJmp)
    ensures Settled(c)
  {
    forall x | 0 <= x <= |c| ensures Settles(c, x) { assert !IsOp(c, Follow(c, x, 0), IJmp); }
  }

  lemma ConcatTargets(a: Code, b: Code)
    requires Settled(a) && Settled(b)
    ensures Targets(a + b)
  {
    hide Settles;
    var c := a + b;
    forall x | IsOp(c, x, IJmp) ensures HasOff(c, x) && 0 <= Target(c, x) <= |c| {
      if x < |a| {
        assert IsOp(a, x, IJmp) && HasOff(a, x);
        assert c[x + 1] == a[x + 1];
      } else {
        assert IsOp(b, x - |a|, IJmp) && HasOff(b, x - |a|);
        assert c[x + 1] == b[x - |a| + 1];
      }
    }
  }

  lemma Concat(a: Code, b: Code)
    requires Settled(a) && Settled(b)
    ensures Settled(a + b)
  {
    hide Settles;
    var c := a + b;
    ConcatTargets(a, b);
    assert Within(c, 0, a) && Within(c, |a|, b);
    AtEndSettles(c);
    forall x | 0 <= x <= |c| ensures Settles(c, x) {
      LiftSettles(c, |a|, b, 0);
      if x < |a| { LiftSettles(c, 0, a, x); } else { LiftSettles(c, |a|, b, x - |a|); }
    }
  }

  lemma Concat3(a: Code, b: Code, c: Code)
    requires Settled(a) && Settled(b) && Settled(c)
    ensures Settled(a + b + c)
  {
    Concat(a, b);
    Concat(a + b, c);
  }

  lemma Concat4(a: Code, b: Code, c: Code, e: Code)
    requires Settled(a) && Settled(b) && Settled(c) && Settled(e)
    ensures Settled(a + b + c + e)
  {
    Concat3(a, b, c);
    Concat(a + b + c, e);
  }

  /** A jump forward into settled code. */
  lemma ForwardJump(off: int, rest: Code)
    requires Settled(rest) && 2 <= off <= 2 + |rest|
    ensures Settled(Jump(IJmp, off) + rest)
  {
    hide Settles;
    var c := Jump(IJmp, off) + rest;
    assert Within(c, 2, rest);
    AtEndSettles(c);
    forall x | IsOp(c, x, IJmp) ensures HasOff(c, x) && 0 <= Target(c, x) <= |c| {
      if x >= 2 { assert IsOp(rest, x - 2, IJmp) && c[x + 1] == rest[x - 1]; }
    }
    forall x | 0 <= x <= |c| ensures Settles(c, x) {
      if x >= 2 {
        LiftSettles(c, 2, rest, x - 2);
      } else if x == 0 {
        LiftSettles(c, 2, rest, off - 2);
        assert Follow(c, 0, 1) == off by { assert Follow(c, off, 0) == off; }
        SettlesVia(c, 0, 1);
      } else {
        NotJump(c, 1);
      }
    }
  }

  lemma ForwardTest(cs: set<byte>, off: int, rest: Code)
    requires Settled(rest) && TestLen(cs) <= off <= TestLen(cs) + |rest|
    ensures Settled(GenTest(cs, off) + rest)
  {
    hide Settled;
    if CharsetType(cs).EmptySet? {
      ForwardJump(off, rest);
    } else {
      NoJump(GenTest(cs, off));
      Concat(GenTest(cs, off), rest);
    }
  }

  lemma ForwardTestIf(f: First, off: int, rest: Code)
    requires Settled(rest) && TestIfLen(f) <= off <= TestIfLen(f) + |rest|
    ensures Settled(GenTestIf(f, off) + rest)
  {
    if f.empty { assert GenTestIf(f, off) + rest == rest; } else { ForwardTest(f.cs, off, rest); }
  }

  lemma OtherJump(op: Opcode, off: int)
    requires op != IJmp
    ensures Settled(Jump(op, off))
  {
    NoJump(Jump(op, off));
  }

  lemma Simple(x: Slot)
    requires x.Op? ==> x.op != IJmp
    ensures Settled([x]) && Settled([])
  {
    NoJump([x]);
    NoJump([]);
  }

  /** The loop that jumps back to its own test. */
  lemma LoopSettled(cs: set<byte>, body: Code)
    requires Settled(body)
    ensures var n := TestLen(cs) + |body|; Settled(GenTest(cs, n + 2) + body + Jump(IJmp, -n))
  {
    hide Settles, Settled, GenTest;
    var t := TestLen(cs);
    var n := t + |body|;
    var test := GenTest(cs, n + 2);
    var c := test + body + Jump(IJmp, -n);
    assert Within(c, t, body);
    assert c[n] == I(IJmp) && c[n + 1] == Off(-n);
    AtEndSettles(c);
    LoopHead(cs, body, c);
    assert Settles(c, n) by {
      assert Follow(c, n, 1) == Follow(c, 0, 0) == 0;
      SettlesVia(c, n, 1);
    }
    LoopTargets(cs, body, c);
    forall x | 0 <= x <= |c| ensures Settles(c, x) {
      if t <= x <= n { LiftSettles(c, t, body, x - t); } else if x == n + 1 { NotJump(c, x); }
    }
    MakeSettled(c);
  }

  lemma MakeSettled(c: Code)
    requires Targets(c)
    requires forall x :: 0 <= x <= |c| ==> Settles(c, x)
    ensures Settled(c)
  {}

  lemma LoopHead(cs: set<byte>, body: Code, c: Code)
    requires var n := TestLen(cs) + |body|; c == GenTest(cs, n + 2) + body + Jump(IJmp, -n)
    ensures forall x :: 0 <= x < TestLen(cs) ==> Settles(c, x)
  {
    hide Settles;
    var t := TestLen(cs);
    var n := t + |body|;
    AtEndSettles(c);
    forall x | 0 <= x < t ensures Settles(c, x) {
      assert c[x] == GenTest(cs, n + 2)[x] && c[1] == GenTest(cs, n + 2)[1] == Off(n + 2);
      if IsOp(c, x, IJmp) {
        assert Follow(c, x, 1) == Follow(c, n + 2, 0) == |c|;
        SettlesVia(c, x, 1);
      } else {
        NotJump(c, x);
      }
    }
  }

  lemma LoopTargets(cs: set<byte>, body: Code, c: Code)
    requires Settled(body)
    requires var n := TestLen(cs) + |body|; c == GenTest(cs, n + 2) + body + Jump(IJmp, -n)
    ensures Targets(c)
  {
    hide Settles;
    var t := TestLen(cs);
    var n := t + |body|;
    forall x | IsOp(c, x, IJmp) ensures HasOff(c, x) && 0 <= Target(c, x) <= |c| {
      if x < t {
        assert c[x] == GenTest(cs, n + 2)[x] && c[1] == GenTest(cs, n + 2)[1] == Off(n + 2);
      } else if x < n {
        assert c[x] == body[x - t] && IsOp(body, x - t, IJmp) && HasOff(body, x - t);
        assert c[x + 1] == body[x - t + 1];
      } else {
        assert c[n + 1] == Off(-n) && c[x] == Jump(IJmp, -n)[x - n];
      }
    }
  }

  // ------------------------------------------------------------------ emitted code

  lemma {:induction false} GenSettled(d: nat, g: seq<Tree>, t: Tree, opt: bool, tt: Test, fl: set<byte>)
    requires WellFormed(d, g, t) && JumpsEnd(d, g, t)
    ensures Settled(Gen(d, g, t, opt, tt, fl))
    decreases t, 1
  {
    hide Gen, GenChoice, GenRep, GenNot, GenAnd, GrammarCode, GetFirst, FixedLen, Settled;
    GenUnfolds(d, g, t, opt, tt, fl);
    match t
    case TChoice(_, _) => ChoiceSettled(d, g, t, opt, fl);
    case TRep(_) => RepSettled(d, g, t, opt, fl);
    case TBehind(k, p) =>
      GenSettled(d, g, p, false, NoTest, FullSet);
      Simple(Op(IBehind, k, 0));
      Concat(if k > 0 then [Op(IBehind, k, 0)] else [], Gen(d, g, p, false, NoTest, FullSet));
    case TNot(_) => NotSettled(d, g, t);
    case TAnd(_) => AndSettled(d, g, t, tt);
    case TSeq(p1, p2) =>
      var fl1 := if NeedFollow(p1) then GetFirst(g, p2, fl, d).cs else FullSet;
      var tt2 := if FixedLen(g, p1, d) != 0 then NoTest else tt;
      GenSettled(d, g, p1, false, tt, fl1);
      GenSettled(d, g, p2, opt, tt2, fl);
      Concat(Gen(d, g, p1, false, tt, fl1), Gen(d, g, p2, opt, tt2, fl));
    case TCall(k) => OpenSettled(k);
    case TGrammar(rs) => GrammarSettled(d, g, rs);
    case _ => LeafSettled(d, g, t, opt, tt, fl);
  }

  lemma LeafSettled(d: nat, g: seq<Tree>, t: Tree, opt: bool, tt: Test, fl: set<byte>)
    requires t.TChar? || t.TSet? || t.TAny? || t.TTrue? || t.TFalse?
    ensures Settled(Gen(d, g, t, opt, tt, fl))
  {
    NoJump(Gen(d, g, t, opt, tt, fl));
  }

  lemma OpenSettled(k: nat)
    ensures Settled([Op(IOpenCall, 0, k), Hole])
  {
    NoJump([Op(IOpenCall, 0, k), Hole]);
  }

  lemma {:induction false} ChoiceSettled(d: nat, g: seq<Tree>, t: Tree, opt: bool, fl: set<byte>)
    requires t.TChoice? && WellFormed(d, g, t) && JumpsEnd(d, g, t)
    ensures Settled(GenChoice(d, g, t, opt, fl))
    decreases t, 0
  {
    hide Gen, GetFirst, HeadFail, FixedLen, CheckAux, Settled, CharsetType, GenTest, TestLen, TestOf, ByHead;
    var p1, p2 := t.p1, t.p2;
    var f1 := GetFirst(g, p1, FullSet, d);
    var c2 := Gen(d, g, p2, opt, NoTest, fl);
    GenSettled(d, g, p2, opt, NoTest, fl);
    if ByHead(d, g, p1, p2, fl) {
      var c1 := Gen(d, g, p1, false, TestOf(f1.cs), fl);
      var jmp := if p2.TTrue? then [] else Jump(IJmp, 2 + |c2|);
      GenSettled(d, g, p1, false, TestOf(f1.cs), fl);
      if p2.TTrue? { assert jmp + c2 == c2; } else { ForwardJump(2 + |c2|, c2); }
      Concat(c1, jmp + c2);
      var head := GenTest(f1.cs, TestLen(f1.cs) + |c1| + |jmp|);
      ForwardTest(f1.cs, TestLen(f1.cs) + |c1| + |jmp|, c1 + (jmp + c2));
      assert head + c1 + jmp + c2 == head + (c1 + (jmp + c2));
    } else if opt && p2.TTrue? {
      GenSettled(d, g, p1, true, NoTest, FullSet);
      OtherJump(IPartialCommit, 2);
      Concat(Jump(IPartialCommit, 2), Gen(d, g, p1, true, NoTest, FullSet));
    } else {
      var c1 := Gen(d, g, p1, p2.TTrue?, TestOfIf(f1), FullSet);
      GenSettled(d, g, p1, p2.TTrue?, TestOfIf(f1), FullSet);
      OtherJump(IChoice, 4 + |c1|);
      OtherJump(ICommit, 2 + |c2|);
      var head := GenTestIf(f1, TestIfLen(f1) + 4 + |c1|);
      var rest := Jump(IChoice, 4 + |c1|) + c1 + Jump(ICommit, 2 + |c2|) + c2;
      Concat4(Jump(IChoice, 4 + |c1|), c1, Jump(ICommit, 2 + |c2|), c2);
      ForwardTestIf(f1, TestIfLen(f1) + 4 + |c1|, rest);
      assert head + Jump(IChoice, 4 + |c1|) + c1 + Jump(ICommit, 2 + |c2|) + c2 == head + rest;
    }
  }

  lemma {:induction false} RepSettled(d: nat, g: seq<Tree>, t: Tree, opt: bool, fl: set<byte>)
    requires t.TRep? && WellFormed(d, g, t) && JumpsEnd(d, g, t)
    ensures Settled(GenRep(d, g, t, opt, fl))
    decreases t, 0
  {
    hide Gen, GetFirst, HeadFail, FixedLen, CheckAux, Settled, CharsetType, GenTest, TestLen, TestOf, ByHeadRep;
    var p := t.p;
    var f := GetFirst(g, p, FullSet, d);
    if ToCharset(p).YesSet? {
      SpanSettled(ToCharset(p).cs);
    } else if ByHeadRep(d, g, p, fl) {
      GenSettled(d, g, p, false, TestOf(f.cs), FullSet);
      LoopSettled(f.cs, Gen(d, g, p, false, TestOf(f.cs), FullSet));
    } else {
      var c := Gen(d, g, p, false, NoTest, FullSet);
      var enter := if opt then Jump(IPartialCommit, 2) else Jump(IChoice, 4 + |c|);
      GenSettled(d, g, p, false, NoTest, FullSet);
      OtherJump(IPartialCommit, 2);
      OtherJump(IChoice, 4 + |c|);
      OtherJump(IPartialCommit, -|c|);
      var head := GenTestIf(f, TestIfLen(f) + 4 + |c|);
      var rest := enter + c + Jump(IPartialCommit, -|c|);
      Concat3(enter, c, Jump(IPartialCommit, -|c|));
      ForwardTestIf(f, TestIfLen(f) + 4 + |c|, rest);
      assert head + enter + c + Jump(IPartialCommit, -|c|) == head + rest;
    }
  }

  lemma SpanSettled(cs: set<byte>)
    ensures Settled([I(ISpan)] + SetBuf(cs))
  {
    NoJump([I(ISpan)] + SetBuf(cs));
  }

  lemma {:induction false} NotSettled(d: nat, g: seq<Tree>, t: Tree)
    requires t.TNot? && WellFormed(d, g, t) && JumpsEnd(d, g, t)
    ensures Settled(GenNot(d, g, t))
    decreases t, 0
  {
    hide Gen, GetFirst, HeadFail, FixedLen, CheckAux, Settled, CharsetType, GenTest, TestLen;
    var f := GetFirst(g, t.p, FullSet, d);
    if HeadFail(g, t.p, d) {
      Simple(I(IFail));
      ForwardTestIf(f, TestIfLen(f) + 1, [I(IFail)]);
    } else {
      var c := Gen(d, g, t.p, false, NoTest, FullSet);
      GenSettled(d, g, t.p, false, NoTest, FullSet);
      OtherJump(IChoice, 3 + |c|);
      Simple(I(IFailTwice));
      var head := GenTestIf(f, TestIfLen(f) + 3 + |c|);
      var rest := Jump(IChoice, 3 + |c|) + c + [I(IFailTwice)];
      Concat3(Jump(IChoice, 3 + |c|), c, [I(IFailTwice)]);
      ForwardTestIf(f, TestIfLen(f) + 3 + |c|, rest);
      assert head + Jump(IChoice, 3 + |c|) + c + [I(IFailTwice)] == head + rest;
    }
  }

  lemma {:induction false} AndSettled(d: nat, g: seq<Tree>, t: Tree, tt: Test)
    requires t.TAnd? && WellFormed(d, g, t) && JumpsEnd(d, g, t)
    ensures Settled(GenAnd(d, g, t, tt))
    decreases t, 0
  {
    hide Gen, GetFirst, HeadFail, FixedLen, CheckAux, Settled;
    var k := FixedLen(g, t.p, d);
    var c := Gen(d, g, t.p, false, tt, FullSet);
    GenSettled(d, g, t.p, false, tt, FullSet);
    if 0 <= k <= MAXBEHIND {
      Simple(Op(IBehind, k, 0));
      Concat(c, if k > 0 then [Op(IBehind, k, 0)] else []);
    } else {
      OtherJump(IChoice, 4 + |c|);
      OtherJump(IBackCommit, 3);
      Simple(I(IFail));
      Concat4(Jump(IChoice, 4 + |c|), c, Jump(IBackCommit, 3), [I(IFail)]);
    }
  }

  lemma {:induction false} RulesSettled(d: nat, g: seq<Tree>, rs: seq<Tree>)
    requires forall k :: 0 <= k < |rs| ==> WellFormed(d, g, rs[k]) && JumpsEnd(d, g, rs[k])
    ensures Settled(GenRules(d, g, rs))
    decreases rs, 2
  {
    hide Gen, FixedLen, CheckAux, Settled;
    Simple(I(IRet));
    if rs != [] {
      var c := Gen(d, g, rs[0], false, NoTest, FullSet);
      GenSettled(d, g, rs[0], false, NoTest, FullSet);
      RulesSettled(d, g, rs[1..]);
      Concat3(c, [I(IRet)], GenRules(d, g, rs[1..]));
    }
  }

  lemma RawSettled(d: nat, rs: seq<Tree>)
    requires forall k :: 0 <= k < |rs| ==> WellFormed(d, rs, rs[k]) && JumpsEnd(d, rs, rs[k])
    ensures Settled(RawGrammar(d, rs))
    decreases rs, 3
  {
    hide Gen, GenRules, FixedLen, CheckAux, Settled;
    RulesSettled(d, rs, rs);
    var body := GenRules(d, rs, rs);
    ForwardJump(2 + |body|, body);
    OtherJump(ICall, 4);
    Concat(Jump(ICall, 4), Jump(IJmp, 2 + |body|) + body);
    assert Jump(ICall, 4) + Jump(IJmp, 2 + |body|) + body == Jump(ICall, 4) + (Jump(IJmp, 2 + |body|) + body);
  }

  /** The linked code of a grammar without circles is settled. */
  lemma {:induction false} GrammarSettled(d: nat, g: seq<Tree>, rs: seq<Tree>)
    requires WellFormed(d, g, TGrammar(rs)) && JumpsEnd(d, g, TGrammar(rs))
    ensures Settled(GrammarCode(d, rs))
    decreases rs, 5
  {
    hide Gen, FixedLen, CheckAux, LinkFrom, Shape, Positions, Follow, Ends;
    var raw, c, ps := RawGrammar(d, rs), GrammarCode(d, rs), Positions(d, rs, rs, 4);
    RawShape(d, rs);
    LinkFromResolves(raw, 4, ps, UsedRules(rs));
    RawSettled(d, rs);
    GrammarOrderly(d, rs);
    forall x | 0 <= x <= |c| ensures Settles(c, x) {
      assert Settles(raw, x);
      var n: nat :| !IsOp(raw, Follow(raw, x, n), IJmp);
      var q := Follow(raw, x, n);
      var m := FollowSame(raw, c, x, n);
      if IsOp(c, q, IJmp) {
        assert IsOpen(raw[q]) by { if !IsOpen(raw[q]) { HoleOrSame(raw, c, UsedRules(rs), q); } }
        OpenKey(raw, UsedRules(rs), q);
        RuleStartSettles(d, rs, raw[q].key, |rs|);
        JumpSettles(c, q, ps[raw[q].key]);
        SettlesVia(c, x, m);
      }
    }
  }

  lemma EndlessUnsettled(c: Code)
    requires Endless(c)
    ensures !Settled(c)
  {
    var x: nat :| x <= |c| && EndlessFrom(c, x);
    forall n: nat ensures IsOp(c, Follow(c, x, n), IJmp) { assert Hop(c, Follow(c, x, n)); }
    assert !Settles(c, x);
  }

  /** Exactly when every search for a final target in the emitted code comes back: no grammar in
      the pattern has rules that jump in a circle. */
  lemma CodeSettlesIff(d: nat, t: Tree)
    requires WellFormed(d, [], t)
    ensures Settled(Gen(d, [], t, false, NoTest, FullSet) + [I(IEnd)]) <==> JumpsEnd(d, [], t)
  {
    hide Gen, Settled, Endless, WellFormed, JumpsEnd;
    var c := Gen(d, [], t, false, NoTest, FullSet);
    if JumpsEnd(d, [], t) {
      GenSettled(d, [], t, false, NoTest, FullSet);
      Simple(I(IEnd));
      Concat(c, [I(IEnd)]);
    } else {
      CircleShows(d, [], t, false, NoTest, FullSet);
      EndlessStart(c, [I(IEnd)]);
      EndlessUnsettled(c + [I(IEnd)]);
    }
  }
}
