/**
 * The compiler as it works: one growing instruction array whose labels are patched in place,
 * followed by the closing of calls and the peephole pass over the same array. Every method is
 * proved to append exactly the code its specification function describes.
 */
module LpegCompiler {
  import opened Words
  import opened LpegTree
  import opened LpegAnalysis
  import opened LpegVm
  import opened LpegCodegen
  import opened LpegLink
  import opened LpegDepth
  import opened LpegAsked
  import opened LpegCorrect
  import opened LpegHead
  import opened LpegCircle
  import opened LpegAfter
  import opened LpegSettle
  import opened LpegVerify
  import opened LpegEnds
  import opened LpegPeephole

  const NOINST := -1

  /** A test whose label is still open. */
  function OpenTest(cs: set<byte>): (c: Code)
    ensures |c| == TestLen(cs)
  {
    GenTest(cs, 0)[1 := Hole]
  }

  function OpenTestIf(f: First): Code { if f.empty then [] else OpenTest(f.cs) }

  /** A set test that the compiler looks back at is complete. */
  predicate TestComplete(code: Code, tt: int) {
    tt < |code| && (IsOp(code, tt, ITestSet) ==> tt + 2 < |code|)
  }

  lemma PatchJump(pre: Code, op: Opcode, x: Code, off: int)
    ensures (pre + [I(op), Hole] + x)[|pre| + 1 := Off(off)] == pre + Jump(op, off) + x
  {}

  lemma PatchTest(pre: Code, cs: set<byte>, x: Code, off: int)
    ensures |pre| + 1 < |pre + OpenTest(cs) + x|
    ensures (pre + OpenTest(cs) + x)[|pre| + 1 := Off(off)] == pre + GenTest(cs, off) + x
  {
    assert OpenTest(cs)[1 := Off(off)] == GenTest(cs, off);
  }

  lemma OpenTestAt(pre: Code, cs: set<byte>)
    ensures TestAt(pre + OpenTest(cs), |pre|) == TestOf(cs) && TestComplete(pre + OpenTest(cs), |pre|)
  {
    var code := pre + OpenTest(cs);
    assert code[|pre|] == OpenTest(cs)[0];
    if CharsetType(cs).Generic? { assert code[|pre| + 2] == OpenTest(cs)[2] == Buf(cs); }
  }

  lemma TestAtGrows(code: Code, x: Code, tt: int)
    requires TestComplete(code, tt)
    ensures TestAt(code + x, tt) == TestAt(code, tt) && TestComplete(code + x, tt)
  {}

  lemma NoTestAt(code: Code)
    ensures TestAt(code, NOINST) == NoTest && TestComplete(code, NOINST)
  {}

  lemma OpenTestIfLen(f: First)
    ensures |OpenTestIf(f)| == TestIfLen(f)
  {}

  lemma GenTestIfLen(f: First, off: int)
    ensures |GenTestIf(f, off)| == TestIfLen(f)
  {}

  lemma TestIfAt(pre: Code, f: First, test: int, x: Code)
    requires test == if f.empty then NOINST else |pre|
    ensures var c := pre + OpenTestIf(f) + x;
            TestAt(c, test) == TestOfIf(f) && TestComplete(c, test) && |OpenTestIf(f)| == TestIfLen(f)
  {
    if f.empty {
      NoTestAt(pre + OpenTestIf(f) + x);
    } else {
      OpenTestAt(pre, f.cs);
      TestAtGrows(pre + OpenTest(f.cs), x, |pre|);
    }
  }

  lemma PatchTestIf(pre: Code, f: First, x: Code, off: int)
    ensures var c := pre + OpenTestIf(f) + x;
            if f.empty then c == pre + GenTestIf(f, off) + x
            else |c| > |pre| + 1 && c[|pre| + 1 := Off(off)] == pre + GenTestIf(f, off) + x
  {
    if !f.empty { PatchTest(pre, f.cs, x, off); }
  }

  lemma Parts(d: nat, g: seq<Tree>, t: Tree)
    requires WellFormed(d, g, t)
    ensures t.TRep? || t.TNot? || t.TAnd? || t.TBehind? ==> WellFormed(d, g, t.p)
    ensures t.TSeq? || t.TChoice? ==> WellFormed(d, g, t.p1) && WellFormed(d, g, t.p2)
    ensures t.TGrammar? ==>
              t.rules != [] && forall k :: 0 <= k < |t.rules| ==> WellFormed(d, t.rules, t.rules[k])
  {}

  /** What code generation for each kind of pattern asks for. */
  lemma Asks(d: nat, g: seq<Tree>, t: Tree)
    ensures t.TRep? ==>
              (Analysed(d, g, t) <==> (ToCharset(t.p).YesSet? || Tested(d, g, t.p)) && Analysed(d, g, t.p))
    ensures t.TNot? ==> (Analysed(d, g, t) <==> Tested(d, g, t.p) && (HeadFail(g, t.p, d) || Analysed(d, g, t.p)))
    ensures t.TAnd? || t.TBehind? ==> (Analysed(d, g, t) <==> Analysed(d, g, t.p))
    ensures t.TSeq? ==>
              (Analysed(d, g, t) <==> (NeedFollow(t.p1) ==> HasFirst(d, g, t.p2)) && Analysed(d, g, t.p1) && Analysed(d, g, t.p2))
    ensures t.TChoice? ==>
              (Analysed(d, g, t) <==>
                Tested(d, g, t.p1) && (HeadFail(g, t.p1, d) || GetFirst(g, t.p1, FullSet, d).empty || HasFirst(d, g, t.p2))
                && Analysed(d, g, t.p1) && Analysed(d, g, t.p2))
    ensures t.TGrammar? ==> (Analysed(d, g, t) <==> forall k :: 0 <= k < |t.rules| ==> Analysed(d, t.rules, t.rules[k]))
    ensures t.TChar? || t.TSet? || t.TAny? || t.TTrue? || t.TFalse? || t.TCall? ==> Analysed(d, g, t)
  {
    hide Tested, HasFirst, HeadFail, GetFirst;
  }

  lemma SetAnalysed(d: nat, g: seq<Tree>, t: Tree)
    requires ToCharset(t).YesSet?
    ensures Analysed(d, g, t)
  {}

  /** The two answers to a test, and what is taken for them. */
  lemma TestAnswers(d: nat, g: seq<Tree>, t: Tree)
    ensures Tested(d, g, t) <==> FirstSet(g, t, FullSet, d).Is? && HeadTest(g, t, d).Is?
    ensures FirstSet(g, t, FullSet, d).Is? ==> GetFirst(g, t, FullSet, d) == FirstSet(g, t, FullSet, d).v
    ensures Tested(d, g, t) ==> HeadFail(g, t, d) == HeadTest(g, t, d).v
  {}

  lemma FollowAnswer(d: nat, g: seq<Tree>, t: Tree, fl: set<byte>)
    ensures HasFirst(d, g, t) <==> FirstSet(g, t, fl, d).Is?
    ensures HasFirst(d, g, t) ==> GetFirst(g, t, fl, d) == FirstSet(g, t, fl, d).v
  {
    FirstEnds(g, t, FullSet, fl, d);
  }

  lemma RepCode(d: nat, g: seq<Tree>, t: Tree, opt: bool, fl: set<byte>)
    requires t.TRep? && !ToCharset(t.p).YesSet?
    ensures var f := GetFirst(g, t.p, FullSet, d);
            var c := Gen(d, g, t.p, false, if ByHeadRep(d, g, t.p, fl) then TestOf(f.cs) else NoTest, FullSet);
            var n := TestLen(f.cs) + |c|;
            GenRep(d, g, t, opt, fl)
            == if ByHeadRep(d, g, t.p, fl) then GenTest(f.cs, n + 2) + c + Jump(IJmp, -n)
               else GenTestIf(f, TestIfLen(f) + 4 + |c|)
                    + (if opt then Jump(IPartialCommit, 2) else Jump(IChoice, 4 + |c|)) + c + Jump(IPartialCommit, -|c|)
  {
    hide Gen, GetFirst, ByHeadRep, GenTest, GenTestIf, TestLen, TestIfLen, TestOf;
  }

  lemma LeafCode(d: nat, g: seq<Tree>, t: Tree, opt: bool, tt: Test, fl: set<byte>)
    ensures t.TChar? ==> Gen(d, g, t, opt, tt, fl) == GenChar(t.c, tt)
    ensures t.TSet? ==> Gen(d, g, t, opt, tt, fl) == GenSet(t.cs, tt)
    ensures t.TAny? ==> Gen(d, g, t, opt, tt, fl) == [I(IAny)]
    ensures t.TTrue? ==> Gen(d, g, t, opt, tt, fl) == []
    ensures t.TFalse? ==> Gen(d, g, t, opt, tt, fl) == [I(IFail)]
  {}

  /** A chain of jumps that stays in a part is the same chain in the whole. */
  lemma {:induction false} FollowAppend(pre: Code, seg: Code, x: int, n: nat)
    requires Targets(seg) && 0 <= x <= |seg|
    ensures Follow(pre + seg, |pre| + x, n) == |pre| + Follow(seg, x, n)
    ensures 0 <= Follow(seg, x, n) <= |seg|
    decreases n
  {
    var c := pre + seg;
    if x < |seg| { assert c[|pre| + x] == seg[x]; }
    if n > 0 && IsOp(seg, x, IJmp) {
      assert HasOff(seg, x) && c[|pre| + x + 1] == seg[x + 1];
      FollowAppend(pre, seg, Target(seg, x), n - 1);
    }
  }

  lemma OpAppend(pre: Code, seg: Code, x: int, op: Opcode)
    requires 0 <= x <= |seg|
    ensures IsOp(pre + seg, |pre| + x, op) == IsOp(seg, x, op)
  {}

  /** The question the compiler asks about a call: does its continuation only jump to `IRet`? */
  lemma TailQuestion(pre: Code, seg: Code, x: int, ft: int)
    requires Targets(seg) && 0 <= x <= |seg| && Settles(seg, x)
    requires Settles(pre + seg, |pre| + x) ==> ft == FinalTarget(pre + seg, |pre| + x)
    ensures Settles(pre + seg, |pre| + x)
    ensures IsOp(pre + seg, ft, IRet) == RetAt(seg, x)
  {
    var n: nat :| !IsOp(seg, Follow(seg, x, n), IJmp);
    FollowAppend(pre, seg, x, n);
    var q := Follow(seg, x, n);
    OpAppend(pre, seg, q, IJmp);
    OpAppend(pre, seg, q, IRet);
    FinalUnique(pre + seg, |pre| + x, n);
    if RetAt(seg, x) {
      var m: nat :| IsOp(seg, Follow(seg, x, m), IRet);
      FinalUnique(seg, x, m);
      FinalUnique(seg, x, n);
    }
  }

  lemma CloseKeepsTargets(seg: Code, i: nat, target: nat)
    requires Targets(seg) && i + 1 < |seg| && IsOpen(seg[i]) && seg[i + 1] == Hole && target <= |seg|
    ensures Targets(CloseOne(seg, i, target))
  {
    hide RetAt;
    var c := CloseOne(seg, i, target);
    forall x | IsOp(c, x, IJmp) ensures HasOff(c, x) && 0 <= Target(c, x) <= |c| {
      if x != i { assert IsOp(seg, x, IJmp) && HasOff(seg, x); }
    }
  }

  lemma CloseInside(pre: Code, seg: Code, i: nat, target: nat, op: Opcode)
    requires i + 1 < |seg| && seg[i].Op? && op == if RetAt(seg, i + 2) then IJmp else ICall
    ensures var c, o := pre + seg, |pre| + i;
            c[o := c[o].(op := op)][o + 1 := Off(|pre| + target - o)] == pre + CloseOne(seg, i, target)
  {
    hide RetAt;
  }

  lemma TailQuestionAsked(pre: Code, seg: Code, x: int)
    requires Targets(seg) && 0 <= x <= |seg| && Settles(seg, x)
    ensures Settles(pre + seg, |pre| + x)
  {
    TailQuestion(pre, seg, x, FinalTarget(pre + seg, |pre| + x));
  }

  lemma CloseKeepsRest(seg: Code, i: nat, target: nat)
    requires i + 1 < |seg| && IsOpen(seg[i])
    ensures var c := CloseOne(seg, i, target);
            !IsOpen(c[i]) && !IsOpen(c[i + 1])
            && forall x :: 0 <= x < |c| && x != i && x != i + 1 ==> c[x] == seg[x]
  {
    hide RetAt;
  }

  lemma CallSize(op: Opcode)
    requires op == IJmp || op == ICall
    ensures SizeI(op) == 2
  {}

  ghost predicate RulesDone(d: nat, rs: seq<Tree>, k: nat, done: Code, a: nat, positions: seq<nat>)
    requires k <= |rs|
  {
    done + GenRules(d, rs, rs[k..]) == GenRules(d, rs, rs)
    && positions + Shifted(Positions(d, rs, rs[k..], 4 + |done|), a) == Shifted(Positions(d, rs, rs, 4), a)
  }

  lemma RulesStart(d: nat, rs: seq<Tree>, a: nat)
    ensures RulesDone(d, rs, 0, [], a, [])
  {
    hide Gen, GenRules, Positions;
    assert rs[0..] == rs;
  }

  lemma RulesNext(d: nat, rs: seq<Tree>, k: nat, done: Code, a: nat, positions: seq<nat>)
    requires k < |rs| && RulesDone(d, rs, k, done, a, positions)
    ensures var c := Gen(d, rs, rs[k], false, NoTest, FullSet) + [I(IRet)];
            RulesDone(d, rs, k + 1, done + c, a, positions + [a + 4 + |done|])
  {
    hide Gen;
    assert rs[k..][0] == rs[k] && rs[k..][1..] == rs[k + 1..];
    var c := Gen(d, rs, rs[k], false, NoTest, FullSet) + [I(IRet)];
    var tail := Positions(d, rs, rs[k + 1..], 4 + |done + c|);
    assert Positions(d, rs, rs[k..], 4 + |done|) == [4 + |done|] + tail;
    assert Shifted([4 + |done|] + tail, a) == [a + 4 + |done|] + Shifted(tail, a);
    assert GenRules(d, rs, rs[k..]) == c + GenRules(d, rs, rs[k + 1..]);
  }

  lemma RulesEnd(d: nat, rs: seq<Tree>, done: Code, a: nat, positions: seq<nat>)
    requires RulesDone(d, rs, |rs|, done, a, positions)
    ensures done == GenRules(d, rs, rs) && positions == Shifted(Positions(d, rs, rs, 4), a)
  {
    assert rs[|rs|..] == [];
  }

  lemma SettledLabels(c: Code)
    requires Settled(c)
    ensures forall x :: IsOp(c, x, IJmp) ==> HasOff(c, x)
  {}

  lemma RawReady(d: nat, rs: seq<Tree>)
    requires forall k :: 0 <= k < |rs| ==> WellFormed(d, rs, rs[k])
    ensures var raw, rel := RawGrammar(d, rs), Positions(d, rs, rs, 4);
            4 <= |raw| && Shape(raw, UsedRules(rs)) && Below(UsedRules(rs), |rel|) && Targets(raw) && AfterCalls(raw)
            && (4 < |raw| ==> raw[4].Op?) && (forall x :: 0 <= x < 4 ==> !IsOpen(raw[x]))
            && (forall k :: 0 <= k < |rel| ==> rel[k] <= |raw|)
  {
    hide Gen, GenRules, Positions, FixedLen, CheckAux, Shape, LinkFrom, Targets, AfterCalls;
    RawShape(d, rs);
    RawOrderly(d, rs);
    UsedBelow(rs);
    forall k | 0 <= k < |rs| ensures Positions(d, rs, rs, 4)[k] <= |RawGrammar(d, rs)| { RuleStarts(d, rs, k); }
  }

  lemma LeafAnalysed(d: nat, g: seq<Tree>, t: Tree)
    requires t.TTrue?
    ensures Analysed(d, g, t)
  {}

  lemma Regroup4(p: Code, a: Code, b: Code, c: Code, e: Code)
    ensures p + a + b + c + e == p + (a + b + c + e)
    ensures p + (a + b + c) == p + a + b + c + []
  {}

  lemma RepRegroup(p: Code, a: Code, b: Code, c: Code, e: Code)
    ensures p + a + (b + (c + e)) == p + (a + b + c + e)
  {}

  lemma Regroup2(p: Code, a: Code, b: Code)
    ensures p + a + b == p + (a + b)
  {}

  lemma Regroup3(p: Code, a: Code, b: Code, c: Code)
    ensures p + a + b + c == p + a + (b + c)
    ensures p + a + b + c == p + (a + (b + c))
    ensures p + [] == p && p + c == p + c + []
  {}

  lemma Regroup6(p: Code, a: Code, b: Code, c: Code, e: Code, f: Code)
    ensures p + a + (b + (c + e)) + f == p + a + b + c + e + f
  {}

  lemma Regroup5(p: Code, a: Code, b: Code, c: Code, e: Code, f: Code)
    ensures p + a + b + c + e + f == p + (a + b + c + e + f)
  {}

  lemma PeepKeepsOp(code: Code, i: nat)
    requires i < |code| && code[i].Op?
    ensures var c := PeepAt(code, i); c[i].Op? && PeepFrom(code, i) == PeepFrom(c, i + SizeI(c[i].op))
  {}

  class CompileState {
    var code: Code

    constructor ()
      ensures code == []
    {
      code := [];
    }

    method AddInstruction(op: Opcode, aux: nat) returns (i: nat)
      modifies this
      ensures code == old(code) + [Op(op, aux, 0)] && i == |old(code)|
    {
      i := |code|;
      code := code + [Op(op, aux, 0)];
    }

    method AddOffsetInst(op: Opcode) returns (i: nat)
      modifies this
      ensures code == old(code) + [I(op), Hole] && i == |old(code)|
    {
      i := AddInstruction(op, 0);
      code := code + [Hole];
    }

    method JumpToThere(instruction: int, target: int)
      requires 0 <= instruction ==> instruction + 1 < |code|
      modifies this
      ensures code == if instruction >= 0 then old(code)[instruction + 1 := Off(target - instruction)] else old(code)
    {
      if instruction >= 0 { code := code[instruction + 1 := Off(target - instruction)]; }
    }

    method JumpToHere(instruction: int)
      requires 0 <= instruction ==> instruction + 1 < |code|
      modifies this
      ensures code == if instruction >= 0 then old(code)[instruction + 1 := Off(|old(code)| - instruction)] else old(code)
    {
      JumpToThere(instruction, |code|);
    }

    /** Patch the label of the instruction behind `pre` to the current position. */
    method PatchLabel(instruction: nat, ghost pre: Code, ghost op: Opcode, ghost x: Code)
      requires code == pre + [I(op), Hole] + x && instruction == |pre|
      modifies this
      ensures code == pre + Jump(op, 2 + |x|) + x
    {
      PatchJump(pre, op, x, 2 + |x|);
      JumpToHere(instruction);
    }

    /** The same for the test behind `pre`, if there is one. */
    method PatchTestLabel(test: int, ghost pre: Code, ghost f: First, ghost x: Code)
      requires code == pre + OpenTestIf(f) + x && test == if f.empty then NOINST else |pre|
      modifies this
      ensures code == pre + GenTestIf(f, TestIfLen(f) + |x|) + x
    {
      hide GenTest, OpenTest, TestLen;
      PatchTestIf(pre, f, x, TestIfLen(f) + |x|);
      OpenTestIfLen(f);
      JumpToHere(test);
    }

    method CodeChar(c: byte, tt: int)
      modifies this
      ensures code == old(code) + GenChar(c, TestAt(old(code), tt))
    {
      if TestAt(code, tt) == TestChar(c) { var _ := AddInstruction(IAny, 0); } else { var _ := AddInstruction(IChar, c); }
    }

    method AddCharset(cs: set<byte>)
      modifies this
      ensures code == old(code) + SetBuf(cs)
    {
      code := code + SetBuf(cs);
    }

    method CodeCharset(cs: set<byte>, tt: int)
      modifies this
      ensures code == old(code) + GenSet(cs, TestAt(old(code), tt))
    {
      match CharsetType(cs)
      case Singleton(c) => CodeChar(c, tt);
      case Generic =>
        if TestAt(code, tt) == TestSet(cs) {
          var _ := AddInstruction(IAny, 0);
        } else {
          var _ := AddInstruction(ISet, 0);
          AddCharset(cs);
          assert code == old(code) + ([I(ISet)] + SetBuf(cs));
        }
      case EmptySet => var _ := AddInstruction(IFail, 0);
      case Complete => var _ := AddInstruction(IAny, 0);
    }

    /** Returns the address of the test, or NOINST when the empty string is to be accepted. */
    method CodeTestSet(cs: set<byte>, e: bool) returns (i: int)
      modifies this
      ensures if e then i == NOINST && code == old(code) else i == |old(code)| && code == old(code) + OpenTest(cs)
    {
      if e { return NOINST; }
      match CharsetType(cs)
      case EmptySet =>
        i := AddOffsetInst(IJmp);
        assert OpenTest(cs) == [I(IJmp), Hole];
      case Complete =>
        i := AddOffsetInst(ITestAny);
        assert OpenTest(cs) == [I(ITestAny), Hole];
      case Singleton(c) =>
        i := AddOffsetInst(ITestChar);
        code := code[i := code[i].(aux := c)];
        assert OpenTest(cs) == [Op(ITestChar, c, 0), Hole];
      case Generic =>
        i := AddOffsetInst(ITestSet);
        AddCharset(cs);
        assert OpenTest(cs) == [I(ITestSet), Hole] + SetBuf(cs);
        assert code == old(code) + ([I(ITestSet), Hole] + SetBuf(cs));
    }

    method CodeBehind(d: nat, g: seq<Tree>, t: Tree) returns (done: bool)
      requires t.TBehind? && WellFormed(d, g, t)
      modifies this
      ensures done <==> Analysed(d, g, t)
      ensures done ==> code == old(code) + ((if t.n > 0 then [Op(IBehind, t.n, 0)] else []) + Gen(d, g, t.p, false, NoTest, FullSet))
      decreases t, 0
    {
      hide Gen, FixedLen, Analysed;
      ghost var pre := code;
      if t.n > 0 { var _ := AddInstruction(IBehind, t.n); }
      NoTestAt(code);
      Parts(d, g, t);
      Asks(d, g, t);
      done := CodeGen(d, g, t.p, false, NOINST, FullSet);
      if !done { return; }
      var head: Code := if t.n > 0 then [Op(IBehind, t.n, 0)] else [];
      assert code == pre + (head + Gen(d, g, t.p, false, NoTest, FullSet));
    }

    method CodeChoice(d: nat, g: seq<Tree>, t: Tree, opt: bool, fl: set<byte>) returns (done: bool)
      requires t.TChoice? && WellFormed(d, g, t)
      modifies this
      ensures done <==> Analysed(d, g, t)
      ensures done ==> code == old(code) + GenChoice(d, g, t, opt, fl)
      decreases t, 1
    {
      hide Gen, GetFirst, HeadFail, FixedLen, CheckAux, Analysed, FirstSet, HeadTest, Tested, HasFirst, WellFormed;
      Parts(d, g, t);
      Asks(d, g, t);
      var p1, p2 := t.p1, t.p2;
      var emptyp2 := p2.TTrue?;
      TestAnswers(d, g, p1);
      FollowAnswer(d, g, p2, fl);
      FollowAnswer(d, g, p1, FullSet);
      var e1 := FirstSet(g, p1, FullSet, d);
      if e1.Deeper? { return false; }
      var head := HeadTest(g, p1, d);
      if head.Deeper? { return false; }
      var f1 := e1.v;
      var byHead := head.v;
      if !byHead && !f1.empty {
        var e2 := FirstSet(g, p2, fl, d);
        if e2.Deeper? { return false; }
        byHead := f1.cs !! e2.v.cs;
      }
      assert byHead == ByHead(d, g, p1, p2, fl);
      if byHead {
        done := CodeHeadChoice(d, g, t, opt, fl, f1);
      } else if opt && emptyp2 {
        ghost var pre := code;
        var pc := AddOffsetInst(IPartialCommit);
        JumpToHere(pc);
        assert code == pre + Jump(IPartialCommit, 2);
        NoTestAt(code);
        LeafAnalysed(d, g, p2);
        done := CodeGen(d, g, p1, true, NOINST, FullSet);
        if !done { return; }
        assert code == pre + (Jump(IPartialCommit, 2) + Gen(d, g, p1, true, NoTest, FullSet));
      } else {
        done := CodeFullChoice(d, g, t, opt, fl, f1);
      }
    }

    /** `test (fail(p)) -> L1; p; jmp ?; L1:`, the jump being optional. */
    method CodeTested(d: nat, g: seq<Tree>, p: Tree, cs: set<byte>, fl: set<byte>, withJmp: bool)
      returns (done: bool, test: int, jmp: int)
      requires WellFormed(d, g, p)
      modifies this
      ensures done <==> Analysed(d, g, p)
      ensures done ==>
              var c := Gen(d, g, p, false, TestOf(cs), fl);
              var j: Code := if withJmp then [I(IJmp), Hole] else [];
              code == old(code) + GenTest(cs, TestLen(cs) + |c| + |j|) + c + j
              && test == |old(code)| && jmp == if withJmp then |old(code)| + TestLen(cs) + |c| else NOINST
      decreases p, 3
    {
      hide Gen, GetFirst, HeadFail, FixedLen, CheckAux, Analysed, FirstSet, HeadTest, Tested, HasFirst, WellFormed, OpenTest, GenTest, TestLen, TestAt, TestOf, CharsetType, TestComplete;
      ghost var pre := code;
      ghost var c := Gen(d, g, p, false, TestOf(cs), fl);
      ghost var j: Code := if withJmp then [I(IJmp), Hole] else [];
      test := CodeTestSet(cs, false);
      OpenTestAt(pre, cs);
      jmp := NOINST;
      done := CodeGen(d, g, p, false, test, fl);
      if !done { return; }
      if withJmp { jmp := AddOffsetInst(IJmp); }
      Regroup3(pre, OpenTest(cs), c, j);
      PatchTest(pre, cs, c + j, TestLen(cs) + |c| + |j|);
      JumpToHere(test);
      Regroup3(pre, GenTest(cs, TestLen(cs) + |c| + |j|), c, j);
    }

    /** `test (fail(p1)) -> L1; p1; jmp L2; L1: p2; L2:` */
    method CodeHeadChoice(d: nat, g: seq<Tree>, t: Tree, opt: bool, fl: set<byte>, f1: First) returns (done: bool)
      requires t.TChoice? && WellFormed(d, g, t) 
      requires ByHead(d, g, t.p1, t.p2, fl) && f1 == GetFirst(g, t.p1, FullSet, d)
      modifies this
      ensures done <==> Analysed(d, g, t.p1) && Analysed(d, g, t.p2)
      ensures done ==> code == old(code) + GenChoice(d, g, t, opt, fl)
      decreases t, 0
    {
      hide Gen, GetFirst, HeadFail, FixedLen, CheckAux, Analysed, FirstSet, HeadTest, Tested, HasFirst, WellFormed, OpenTest, GenTest, TestLen, TestAt, TestOf, CharsetType, TestComplete, ByHead;
      Parts(d, g, t);
      ghost var pre := code;
      var p1, p2 := t.p1, t.p2;
      var emptyp2 := p2.TTrue?;
      ghost var c1 := Gen(d, g, p1, false, TestOf(f1.cs), fl);
      ghost var c2 := Gen(d, g, p2, opt, NoTest, fl);
      ghost var j: Code := if emptyp2 then [] else [I(IJmp), Hole];
      ghost var head := GenTest(f1.cs, TestLen(f1.cs) + |c1| + |j|);
      var test, jmp;
      done, test, jmp := CodeTested(d, g, p1, f1.cs, fl, !emptyp2);
      if !done { return; }
      NoTestAt(code);
      done := CodeGen(d, g, p2, opt, NOINST, fl);
      if !done { return; }
      if emptyp2 {
        Regroup4(pre, head, c1, [], c2);
      } else {
        PatchLabel(jmp, pre + head + c1, IJmp, c2);
        Regroup4(pre, head, c1, Jump(IJmp, 2 + |c2|), c2);
      }
    }

    /** `test(first(p1)) -> L1; choice L1; p1; commit L2; L1: p2; L2:` */
    method CodeFullChoice(d: nat, g: seq<Tree>, t: Tree, opt: bool, fl: set<byte>, f1: First) returns (done: bool)
      requires t.TChoice? && WellFormed(d, g, t)
      requires !ByHead(d, g, t.p1, t.p2, fl) && !(opt && t.p2.TTrue?) && f1 == GetFirst(g, t.p1, FullSet, d)
      modifies this
      ensures done <==> Analysed(d, g, t.p1) && Analysed(d, g, t.p2)
      ensures done ==> code == old(code) + GenChoice(d, g, t, opt, fl)
      decreases t, 0
    {
      hide Gen, GetFirst, HeadFail, FixedLen, CheckAux, Analysed, FirstSet, HeadTest, Tested, HasFirst, WellFormed, OpenTest, GenTest, TestLen, TestAt, TestOf, CharsetType, TestComplete, ByHead, OpenTestIf, GenTestIf, TestIfLen, TestOfIf;
      Parts(d, g, t);
      ghost var pre := code;
      var p1, p2 := t.p1, t.p2;
      var emptyp2 := p2.TTrue?;
      ghost var c1 := Gen(d, g, p1, emptyp2, TestOfIf(f1), FullSet);
      ghost var c2 := Gen(d, g, p2, opt, NoTest, fl);
      ghost var n := TestIfLen(f1);
      ghost var open := pre + OpenTestIf(f1);
      ghost var head := GenTestIf(f1, n + 4 + |c1|);
      var test := CodeTestIf(f1);
      TestIfAt(pre, f1, test, [I(IChoice), Hole]);
      var pchoice := AddOffsetInst(IChoice);
      done := CodeGen(d, g, p1, emptyp2, test, FullSet);
      if !done { return; }
      var pcommit := AddOffsetInst(ICommit);
      ghost var y := c1 + [I(ICommit), Hole];
      Regroup3(open, [I(IChoice), Hole], c1, [I(ICommit), Hole]);
      PatchLabel(pchoice, open, IChoice, y);
      ghost var x := Jump(IChoice, 4 + |c1|) + y;
      Regroup2(open, Jump(IChoice, 4 + |c1|), y);
      PatchTestLabel(test, pre, f1, x);
      NoTestAt(code);
      done := CodeGen(d, g, p2, opt, NOINST, fl);
      if !done { return; }
      ghost var front := pre + head + Jump(IChoice, 4 + |c1|) + c1;
      Regroup6(pre, head, Jump(IChoice, 4 + |c1|), c1, [I(ICommit), Hole], c2);
      GenTestIfLen(f1, n + 4 + |c1|);
      PatchLabel(pcommit, front, ICommit, c2);
      Regroup5(pre, head, Jump(IChoice, 4 + |c1|), c1, Jump(ICommit, 2 + |c2|), c2);
    }

    method CodeTestIf(f: First) returns (i: int)
      modifies this
      ensures code == old(code) + OpenTestIf(f) && i == if f.empty then NOINST else |old(code)|
      ensures |code| == |old(code)| + TestIfLen(f)
    {
      OpenTestIfLen(f);
      i := CodeTestSet(f.cs, f.empty);
    }

    method CodeAnd(d: nat, g: seq<Tree>, t: Tree, tt: int) returns (done: bool)
      requires t.TAnd? && WellFormed(d, g, t) && TestComplete(code, tt)
      modifies this
      ensures done <==> Analysed(d, g, t)
      ensures done ==> code == old(code) + GenAnd(d, g, t, TestAt(old(code), tt))
      decreases t, 0
    {
      hide Gen, FixedLen, CheckAux, Analysed, FirstSet, HeadTest, Tested, HasFirst, WellFormed, TestAt, TestComplete;
      Parts(d, g, t);
      Asks(d, g, t);
      ghost var pre := code;
      ghost var c := Gen(d, g, t.p, false, TestAt(pre, tt), FullSet);
      var n := FixedLen(g, t.p, d);
      if 0 <= n <= MAXBEHIND {
        done := CodeGen(d, g, t.p, false, tt, FullSet);
        if !done { return; }
        if n > 0 {
          var _ := AddInstruction(IBehind, n);
          assert code == pre + (c + [Op(IBehind, n, 0)]);
        } else {
          assert code == pre + (c + []);
        }
      } else {
        TestAtGrows(pre, [I(IChoice), Hole], tt);
        var pchoice := AddOffsetInst(IChoice);
        done := CodeGen(d, g, t.p, false, tt, FullSet);
        if !done { return; }
        var pcommit := AddOffsetInst(IBackCommit);
        ghost var y := c + [I(IBackCommit), Hole];
        Regroup3(pre, [I(IChoice), Hole], c, [I(IBackCommit), Hole]);
        PatchLabel(pchoice, pre, IChoice, y);
        var _ := AddInstruction(IFail, 0);
        ghost var front := pre + Jump(IChoice, 4 + |c|) + c;
        Regroup4(pre, Jump(IChoice, 4 + |c|), c, [I(IBackCommit), Hole], [I(IFail)]);
        Regroup3(pre, Jump(IChoice, 4 + |c|), c, [I(IBackCommit), Hole]);
        PatchLabel(pcommit, front, IBackCommit, [I(IFail)]);
        Regroup4(pre, Jump(IChoice, 4 + |c|), c, Jump(IBackCommit, 3), [I(IFail)]);
      }
    }

    method CodeRep(d: nat, g: seq<Tree>, t: Tree, opt: bool, fl: set<byte>) returns (done: bool)
      requires t.TRep? && WellFormed(d, g, t)
      modifies this
      ensures done <==> Analysed(d, g, t)
      ensures done ==> code == old(code) + GenRep(d, g, t, opt, fl)
      decreases t, 1
    {
      hide Gen, GetFirst, HeadFail, FixedLen, CheckAux, Analysed, FirstSet, HeadTest, Tested, HasFirst, WellFormed;
      ghost var pre := code;
      Asks(d, g, t);
      TestAnswers(d, g, t.p);
      var st := ToCharset(t.p);
      if st.YesSet? {
        var _ := AddInstruction(ISpan, 0);
        AddCharset(st.cs);
        assert code == pre + ([I(ISpan)] + SetBuf(st.cs));
        SetAnalysed(d, g, t.p);
        done := true;
      } else {
        var e1 := FirstSet(g, t.p, FullSet, d);
        if e1.Deeper? { return false; }
        var head := HeadTest(g, t.p, d);
        if head.Deeper? { return false; }
        var f := e1.v;
        if head.v || (!f.empty && f.cs !! fl) {
          done := CodeHeadRep(d, g, t, opt, fl, f);
        } else {
          done := CodeFullRep(d, g, t, opt, fl, f);
        }
      }
    }

    /** `L1: test (fail(p1)) -> L2; p; jmp L1; L2:` */
    method CodeHeadRep(d: nat, g: seq<Tree>, t: Tree, opt: bool, fl: set<byte>, f: First) returns (done: bool)
      requires t.TRep? && WellFormed(d, g, t)
      requires !ToCharset(t.p).YesSet? && ByHeadRep(d, g, t.p, fl) && f == GetFirst(g, t.p, FullSet, d)
      modifies this
      ensures done <==> Analysed(d, g, t.p)
      ensures done ==> code == old(code) + GenRep(d, g, t, opt, fl)
      decreases t, 0
    {
      hide Gen, GetFirst, HeadFail, FixedLen, CheckAux, Analysed, FirstSet, HeadTest, Tested, HasFirst, WellFormed, OpenTest, GenTest, TestLen, TestAt, TestOf, CharsetType, TestComplete, ByHeadRep, GenRep;
      Parts(d, g, t);
      RepCode(d, g, t, opt, fl);
      ghost var pre := code;
      ghost var c := Gen(d, g, t.p, false, TestOf(f.cs), FullSet);
      ghost var n := TestLen(f.cs) + |c|;
      ghost var head := GenTest(f.cs, n + 2);
      var test, jmp;
      done, test, jmp := CodeTested(d, g, t.p, f.cs, FullSet, true);
      if !done { return; }
      Regroup3(pre + head + c, [], [], [I(IJmp), Hole]);
      PatchJump(pre + head + c, IJmp, [], -n);
      JumpToThere(jmp, test);
      Regroup4(pre, head, c, Jump(IJmp, -n), []);
    }

    /** `test(fail(p1)) -> L2; choice L2; L1: p; partialcommit L1; L2:`, or with `opt` a partial
        commit instead of the choice. */
    method CodeFullRep(d: nat, g: seq<Tree>, t: Tree, opt: bool, fl: set<byte>, f: First) returns (done: bool)
      requires t.TRep? && WellFormed(d, g, t)
      requires !ToCharset(t.p).YesSet? && !ByHeadRep(d, g, t.p, fl) && f == GetFirst(g, t.p, FullSet, d)
      modifies this
      ensures done <==> Analysed(d, g, t.p)
      ensures done ==> code == old(code) + GenRep(d, g, t, opt, fl)
      decreases t, 0
    {
      hide Gen, GetFirst, HeadFail, FixedLen, CheckAux, Analysed, FirstSet, HeadTest, Tested, HasFirst, WellFormed, OpenTest, GenTest, TestLen, TestAt, TestOf, CharsetType, TestComplete, ByHeadRep, OpenTestIf, GenTestIf, TestIfLen, GenRep;
      Parts(d, g, t);
      RepCode(d, g, t, opt, fl);
      ghost var pre := code;
      ghost var c := Gen(d, g, t.p, false, NoTest, FullSet);
      ghost var n := TestIfLen(f);
      ghost var open := pre + OpenTestIf(f);
      var test := CodeTestIf(f);
      var pchoice := CodeEnter(opt, open);
      ghost var enter: Code := if opt then Jump(IPartialCommit, 2) else [I(IChoice), Hole];
      var l2 := |code|;
      NoTestAt(code);
      done := CodeGen(d, g, t.p, false, NOINST, FullSet);
      if !done { return; }
      var commit := AddOffsetInst(IPartialCommit);
      ghost var back := Jump(IPartialCommit, -|c|);
      PatchJump(open + enter + c, IPartialCommit, [], -|c|);
      Regroup3(open + enter + c, [], [], [I(IPartialCommit), Hole]);
      JumpToThere(commit, l2);
      Regroup3(open, enter, c, back);
      if !opt { PatchLabel(pchoice, open, IChoice, c + back); }
      ghost var enter' := if opt then Jump(IPartialCommit, 2) else Jump(IChoice, 4 + |c|);
      Regroup2(open, enter', c + back);
      PatchTestLabel(test, pre, f, enter' + (c + back));
      RepRegroup(pre, GenTestIf(f, n + 4 + |c|), enter', c, back);
    }

    /** The entry of a repetition: a new alternative, or with `opt` an update of the current one. */
    method CodeEnter(opt: bool, ghost open: Code) returns (pchoice: nat)
      requires code == open
      modifies this
      ensures code == open + (if opt then Jump(IPartialCommit, 2) else [I(IChoice), Hole]) && pchoice == |open|
    {
      if opt {
        pchoice := AddOffsetInst(IPartialCommit);
        Regroup3(open, [], [], [I(IPartialCommit), Hole]);
        PatchLabel(pchoice, open, IPartialCommit, []);
        Regroup3(open, [], [], Jump(IPartialCommit, 2));
      } else {
        pchoice := AddOffsetInst(IChoice);
      }
    }

    method CodeNot(d: nat, g: seq<Tree>, t: Tree) returns (done: bool)
      requires t.TNot? && WellFormed(d, g, t)
      modifies this
      ensures done <==> Analysed(d, g, t)
      ensures done ==> code == old(code) + GenNot(d, g, t)
      decreases t, 0
    {
      hide Gen, GetFirst, HeadFail, FixedLen, CheckAux, Analysed, FirstSet, HeadTest, Tested, HasFirst, WellFormed, OpenTest, GenTest, TestLen, TestAt, TestOf, CharsetType, TestComplete, OpenTestIf, GenTestIf, TestIfLen;
      Parts(d, g, t);
      Asks(d, g, t);
      TestAnswers(d, g, t.p);
      ghost var pre := code;
      var p := t.p;
      var e := FirstSet(g, p, FullSet, d);
      if e.Deeper? { return false; }
      var f := e.v;
      ghost var n := TestIfLen(f);
      ghost var open := pre + OpenTestIf(f);
      var test := CodeTestIf(f);
      var head := HeadTest(g, p, d);
      if head.Deeper? { return false; }
      done := true;
      if head.v {
        var _ := AddInstruction(IFail, 0);
        PatchTestLabel(test, pre, f, [I(IFail)]);
        Regroup2(pre, GenTestIf(f, n + 1), [I(IFail)]);
      } else {
        ghost var c := Gen(d, g, p, false, NoTest, FullSet);
        var pchoice := AddOffsetInst(IChoice);
        NoTestAt(code);
        done := CodeGen(d, g, p, false, NOINST, FullSet);
        if !done { return; }
        var _ := AddInstruction(IFailTwice, 0);
        ghost var y := c + [I(IFailTwice)];
        Regroup3(open, [I(IChoice), Hole], c, [I(IFailTwice)]);
        PatchLabel(pchoice, open, IChoice, y);
        Regroup2(open, Jump(IChoice, 3 + |c|), y);
        PatchTestLabel(test, pre, f, Jump(IChoice, 3 + |c|) + y);
        Regroup4(pre, GenTestIf(f, n + 3 + |c|), Jump(IChoice, 3 + |c|), c, [I(IFailTwice)]);
        Regroup3(pre + GenTestIf(f, n + 3 + |c|), Jump(IChoice, 3 + |c|), c, [I(IFailTwice)]);
      }
    }

    method CodeCall(k: nat)
      modifies this
      ensures code == old(code) + [Op(IOpenCall, 0, k), Hole]
    {
      var c := AddOffsetInst(IOpenCall);
      code := code[c := code[c].(key := k)];
    }

    /** Code the first pattern of a sequence; returns the test that still protects the second. */
    method CodeSeq1(d: nat, g: seq<Tree>, p1: Tree, p2: Tree, tt: int, fl: set<byte>) returns (done: bool, tt2: int)
      requires WellFormed(d, g, p1) && TestComplete(code, tt)
      modifies this
      ensures done <==> (NeedFollow(p1) ==> HasFirst(d, g, p2)) && Analysed(d, g, p1)
      ensures done ==> code == old(code) + Gen(d, g, p1, false, TestAt(old(code), tt),
                                               if NeedFollow(p1) then GetFirst(g, p2, fl, d).cs else FullSet)
      ensures tt2 == if FixedLen(g, p1, d) != 0 then NOINST else tt
      decreases p1, 3
    {
      hide Gen, GetFirst, FixedLen, Analysed, FirstSet, HasFirst;
      tt2 := if FixedLen(g, p1, d) != 0 then NOINST else tt;
      if NeedFollow(p1) {
        FollowAnswer(d, g, p2, fl);
        var fl1 := FirstSet(g, p2, fl, d);
        if fl1.Deeper? { return false, tt2; }
        done := CodeGen(d, g, p1, false, tt, fl1.v.cs);
      } else {
        done := CodeGen(d, g, p1, false, tt, FullSet);
      }
    }

    /** Dispatch on the kind of pattern. With room for `d` nested calls of an analysis, `done` tells
        whether that was enough for all of them. */
    method CodeGen(d: nat, g: seq<Tree>, t: Tree, opt: bool, tt: int, fl: set<byte>) returns (done: bool)
      requires WellFormed(d, g, t) && TestComplete(code, tt)
      modifies this
      ensures done <==> Analysed(d, g, t)
      ensures done ==> code == old(code) + Gen(d, g, t, opt, TestAt(old(code), tt), fl)
      decreases t, 2
    {
      hide Gen, GenChoice, GenRep, GenNot, GenAnd, GrammarCode, GetFirst, FixedLen, CheckAux, TestAt, TestComplete, Analysed, HasFirst, Tested, HeadFail;
      ghost var pre := code;
      ghost var test := TestAt(pre, tt);
      GenUnfolds(d, g, t, opt, test, fl);
      LeafCode(d, g, t, opt, test, fl);
      Parts(d, g, t);
      Asks(d, g, t);
      done := true;
      match t
      case TChar(c) => CodeChar(c, tt);
      case TAny => var _ := AddInstruction(IAny, 0);
      case TSet(cs) => CodeCharset(cs, tt);
      case TTrue =>
      case TFalse => var _ := AddInstruction(IFail, 0);
      case TChoice(_, _) => done := CodeChoice(d, g, t, opt, fl);
      case TRep(_) => done := CodeRep(d, g, t, opt, fl);
      case TBehind(_, _) => done := CodeBehind(d, g, t);
      case TNot(_) => done := CodeNot(d, g, t);
      case TAnd(_) => done := CodeAnd(d, g, t, tt);
      case TGrammar(_) => done := CodeGrammar(d, g, t);
      case TCall(k) => CodeCall(k);
      case TSeq(p1, p2) =>
        ghost var fl1 := if NeedFollow(p1) then GetFirst(g, p2, fl, d).cs else FullSet;
        ghost var c1 := Gen(d, g, p1, false, test, fl1);
        var tt2;
        done, tt2 := CodeSeq1(d, g, p1, p2, tt, fl);
        if !done { return; }
        TestAtGrows(pre, c1, tt);
        NoTestAt(pre + c1);
        done := CodeGen(d, g, p2, opt, tt2, fl);
        if !done { return; }
        assert code == pre + (c1 + Gen(d, g, p2, opt, if FixedLen(g, p1, d) != 0 then NoTest else test, fl));
    }

    /** The final destination of a chain of jumps. */
    method FindTarget(i: int) returns (t: int)
      requires Settles(code, i)
      ensures t == FinalTarget(code, i) && !IsOp(code, t, IJmp)
    {
      ghost var n: nat :| !IsOp(code, Follow(code, i, n), IJmp);
      ghost var k: nat := 0;
      t := i;
      while IsOp(code, t, IJmp)
        invariant Follow(code, i, k) == t && Follow(code, i, k + n) == Follow(code, t, n)
        invariant !IsOp(code, Follow(code, t, n), IJmp)
        decreases n
      {
        assert !HasOff(code, t) ==> Follow(code, t, n) == t;
        var t' := Target(code, t);
        assert Follow(code, t, 1) == Follow(code, t', 0) == t';
        FollowSplit(code, i, k, 1);
        t := t';
        n := n - 1;
        k := k + 1;
        FollowSplit(code, i, k, n);
      }
      FinalUnique(code, i, k);
    }

    /** Close the open call at `i`, which stands at `i - |pre|` in the code `seg` of its grammar. */
    method CorrectCall(i: nat, rule: nat, ghost pre: Code, ghost seg: Code, ghost target: nat)
      requires code == pre + seg && |pre| <= i && i + 2 <= |code| && Targets(seg)
      requires seg[i - |pre|].Op? && Settles(seg, i - |pre| + 2) && rule == |pre| + target
      modifies this
      ensures code == pre + CloseOne(seg, i - |pre|, target)
      ensures code[i].Op? && SizeI(code[i].op) == 2
    {
      hide Settles, Follow, RetAt;
      TailQuestionAsked(pre, seg, i - |pre| + 2);
      var ft := FindTarget(i + 2);
      TailQuestion(pre, seg, i - |pre| + 2, ft);
      var op := if IsOp(code, ft, IRet) then IJmp else ICall;
      CloseInside(pre, seg, i - |pre|, target, op);
      assert code[i].Op? by { assert code[i] == seg[i - |pre|]; }
      code := code[i := code[i].(op := op)];
      JumpToThere(i, rule);
      CallSize(op);
    }

    /** Close the open calls of a grammar whose code `seg` stands behind `pre`. */
    method CorrectCalls(positions: seq<nat>, from: nat, ghost pre: Code, ghost seg: Code, ghost rel: seq<nat>, ghost ks: set<nat>)
      requires code == pre + seg && 4 <= |seg| && from == |pre| + 4 && positions == Shifted(rel, |pre|)
      requires Shape(seg, ks) && Below(ks, |rel|) && Targets(seg) && (4 < |seg| ==> seg[4].Op?)
      requires forall x :: 0 <= x < 4 ==> !IsOpen(seg[x])
      requires forall k :: 0 <= k < |rel| ==> rel[k] <= |seg|
      requires AfterCalls(seg)
      modifies this
      ensures code == pre + Link(seg, rel)
    {
      hide Settles, Follow, LinkFrom, RetAt, Shape, Ended, SizeI, Targets, CloseOne;
      ghost var r := Link(seg, rel);
      ghost var cur := seg;
      var i := from;
      while i < |code|
        invariant code == pre + cur && |cur| == |seg| && from <= i <= |code|
        invariant Shape(cur, ks) && Targets(cur) && (i < |code| ==> cur[i - |pre|].Op?)
        invariant forall x :: 0 <= x < i - |pre| && x < |cur| ==> !IsOpen(cur[x])
        invariant LinkFrom(cur, i - |pre|, rel) == r && SameClosed(seg, cur)
        invariant forall x :: i - |pre| <= x < |cur| ==> cur[x] == seg[x]
        decreases |code| - i
      {
        ghost var o := i - |pre|;
        assert code[i] == cur[o];
        LinkStep(cur, o, rel, ks);
        SizePositive(code[i].op);
        if code[i].op == IOpenCall {
          assert IsOpen(seg[o]);
          EndedSettles(seg, cur, o + 2);
          ghost var target := rel[cur[o].key];
          CorrectCall(i, positions[code[i].key], pre, cur, target);
          CloseOneShape(cur, o, target, ks);
          CloseKeepsTargets(cur, o, target);
          CloseKeepsRest(cur, o, target);
          cur := CloseOne(cur, o, target);
        }
        i := i + SizeI(code[i].op);
      }
      LinkDone(cur, i - |pre|, rel, ks);
    }

    /** The rules of a grammar, each followed by `IRet`; returns where they start. */
    method CodeRules(d: nat, rs: seq<Tree>, ghost a: nat) returns (done: bool, positions: seq<nat>)
      requires forall k :: 0 <= k < |rs| ==> WellFormed(d, rs, rs[k])
      requires |code| == a + 4
      modifies this
      ensures done <==> forall k :: 0 <= k < |rs| ==> Analysed(d, rs, rs[k])
      ensures done ==> code == old(code) + GenRules(d, rs, rs)
      ensures done ==> positions == Shifted(Positions(d, rs, rs, 4), a)
      decreases rs, 3
    {
      hide Gen, Analysed, FirstSet, HeadTest, Tested, HasFirst, WellFormed, FixedLen, CheckAux, TestAt, TestComplete, GenRules, Positions, RulesDone;
      done, positions := true, [];
      ghost var pre := code;
      ghost var coded: Code := [];
      RulesStart(d, rs, a);
      for k := 0 to |rs|
        invariant code == pre + coded && RulesDone(d, rs, k, coded, a, positions)
        invariant done && forall j :: 0 <= j < k ==> Analysed(d, rs, rs[j])
      {
        ghost var c := Gen(d, rs, rs[k], false, NoTest, FullSet);
        RulesNext(d, rs, k, coded, a, positions);
        positions := positions + [|code|];
        NoTestAt(code);
        done := CodeGen(d, rs, rs[k], false, NOINST, FullSet);
        if !done { return; }
        var _ := AddInstruction(IRet, 0);
        Regroup3(pre, coded, c, [I(IRet)]);
        coded := coded + (c + [I(IRet)]);
      }
      RulesEnd(d, rs, coded, a, positions);
    }

    method CodeGrammar(d: nat, g: seq<Tree>, t: Tree) returns (done: bool)
      requires t.TGrammar? && WellFormed(d, g, t)
      modifies this
      ensures done <==> Analysed(d, g, t)
      ensures done ==> code == old(code) + GrammarCode(d, t.rules)
      decreases t, 0
    {
      hide Gen, GenRules, Positions, Analysed, FirstSet, HeadTest, Tested, HasFirst, WellFormed, FixedLen, CheckAux, Settled, Shape, LinkFrom, Link;
      var rs := t.rules;
      ghost var pre := code;
      Parts(d, g, t);
      Asks(d, g, t);
      var firstcall := AddOffsetInst(ICall);
      var jumptoend := AddOffsetInst(IJmp);
      var start := |code|;
      JumpToHere(firstcall);
      ghost var head := pre + Jump(ICall, 4);
      assert code == head + [I(IJmp), Hole];
      var positions;
      done, positions := CodeRules(d, rs, |pre|);
      if !done { return; }
      ghost var body := GenRules(d, rs, rs);
      PatchJump(head, IJmp, body, 2 + |body|);
      JumpToHere(jumptoend);
      ghost var raw := RawGrammar(d, rs);
      assert code == pre + raw;
      RawReady(d, rs);
      CorrectCalls(positions, start, pre, raw, Positions(d, rs, rs, 4), UsedRules(rs));
    }

    method Peephole()
      requires Settled(code)
      modifies this
      ensures code == PeepFrom(old(code), 0)
    {
      hide Settles, Settled, Follow, FinalTarget, SizeI, PeepAt;
      var i: nat := 0;
      while i < |code| && code[i].Op?
        invariant Settled(code) && PeepFrom(code, i) == PeepFrom(old(code), 0)
        decreases |code| - i
      {
        ghost var before := code;
        PeepKeepsSettled(code, i);
        PeepInstruction(i);
        PeepKeepsOp(before, i);
        SizePositive(code[i].op);
        i := i + SizeI(code[i].op);
      }
    }

    /** One instruction of the pass. */
    method PeepInstruction(i: nat)
      requires Settled(code) && i < |code| && code[i].Op?
      modifies this
      ensures code == PeepAt(old(code), i)
    {
      hide Settles, Follow, FinalTarget, Settled;
      SettledLabels(code);
      SettlesAll(code, i);
      if LabelOp(code[i].op) && HasOff(code, i) {
        SettlesAll(code, Target(code, i));
        var t := FindTarget(Target(code, i));
        JumpToThere(i, t);
      } else if code[i].op == IJmp && HasOff(code, i) {
        var ft := FindTarget(i);
        if 0 <= ft < |code| && code[ft].Op? && Leaves(code[ft].op) {
          code := code[i := code[ft]];
          code := code[i + 1 := I(IAny)];
        } else if 0 <= ft < |code| && code[ft].Op? && LeavesByLabel(code[ft].op) && HasOff(code, ft) {
          SettlesAll(code, Target(code, ft));
          RedoChangesNothing(code, i, ft);
          var fft := FindTarget(Target(code, ft));
          code := code[i := code[ft]];
          JumpToThere(i, fft);
        } else {
          JumpToThere(i, ft);
        }
      }
    }
  }

  /** The finished program of a pattern. */
  ghost function Compiled(t: Tree): Code {
    PeepFrom(Gen(Enough(t), [], t, false, NoTest, FullSet) + [I(IEnd)], 0)
  }

  /** The pattern as the compiler gets it: with enough room for its analyses. */
  predicate Compilable(t: Tree) { WellFormed(Enough(t), [], t) && Analysed(Enough(t), [], t) && JumpsEnd(Enough(t), [], t) }

  /** Compiling. Without a program the analyses never end, however much room there is. */
  method Compile(t: Tree) returns (r: Option<Code>)
    requires WellFormed(Enough(t), [], t) && (Analysed(Enough(t), [], t) ==> JumpsEnd(Enough(t), [], t))
    ensures r.Some? <==> exists d: nat :: Analysed(d, [], t)
    ensures r.Some? ==> r.value == Compiled(t)
  {
    hide Gen, Settled, TestAt, TestComplete, PeepFrom, Analysed;
    AnalysedSoon(t);
    var compst := new CompileState();
    NoTestAt(compst.code);
    var done := compst.CodeGen(Enough(t), [], t, false, NOINST, FullSet);
    if !done { return None; }
    var _ := compst.AddInstruction(IEnd, 0);
    ghost var c := Gen(Enough(t), [], t, false, NoTest, FullSet);
    assert compst.code == c + [I(IEnd)] by { assert [] + c == c; }
    CodeSettlesIff(Enough(t), t);
    compst.Peephole();
    return Some(compst.code);
  }

  lemma EndRuns(code: Code, s: seq<byte>, i: nat, stk: Stack)
    requires code != [] && code[|code| - 1] == I(IEnd) && i <= |s|
    ensures Halts(code, s, State(|code| - 1, i, stk), Succ(i))
  {
    StepBack(code, s, State(|code| - 1, i, stk), Succ(i));
  }

  lemma GiveupRuns(code: Code, s: seq<byte>)
    ensures forall i: nat :: Halts(code, s, State(GIVEUP, i, Bottom), Fail)
  {
    forall i: nat ensures Halts(code, s, State(GIVEUP, i, Bottom), Fail) {
      StepBack(code, s, State(GIVEUP, i, Bottom), Fail);
    }
  }

  /** The finished program of a pattern that can be compiled, run from a position where matching
      ends, stops with the meaning of the pattern. */
  lemma CompiledCorrect(t: Tree, f: nat, s: seq<byte>, i: nat)
    requires Compilable(t) && i <= |s| && Eval(f, [], t, s, i) != Out
    ensures Halts(Compiled(t), s, State(0, i, InitStack(i)), Eval(f, [], t, s, i))
  {
    hide Gen, Settled, PeepFrom, Step, Halts, JumpsEnd, Analysed, CheckLoops, FixedLen, Eval, Enough;
    var d := Enough(t);
    var c := Gen(d, [], t, false, NoTest, FullSet);
    var code := c + [I(IEnd)];
    var r := Eval(f, [], t, s, i);
    GenHolds(d, t, code);
    if r.Succ? { EndRuns(code, s, r.pos, InitStack(i)); } else { GiveupRuns(code, s); }
    ContFull(code, s, |c|, InitStack(i), r, r);
    GenCorrect(code, s, f, d, [], [], t, 0, false, NoTest, FullSet, i, InitStack(i), r);
    CodeSettlesIff(d, t);
    PeepFromHalts(code, 0, s, State(0, i, InitStack(i)), r);
  }

  /** The program does not depend on how much room the analyses get, once it is enough. */
  lemma RoomIrrelevant(t: Tree, d: nat)
    requires Enough(t) <= d
    ensures Compiled(t) == PeepFrom(Gen(d, [], t, false, NoTest, FullSet) + [I(IEnd)], 0)
  {
    hide Gen, PeepFrom;
    GenSame(Enough(t), d, [], t, false, NoTest, FullSet);
  }

  lemma NoOpen(c: Code)
    requires Shape(c, {})
    ensures forall x :: 0 <= x < |c| ==> !IsOpen(c[x])
  {
    forall x | 0 <= x < |c| && c[x].Op? ensures !IsOpen(c[x]) { assert InstrOK(c, x, {}); }
  }

  lemma GenHolds(d: nat, t: Tree, code: Code)
    requires WellFormed(d, [], t) && Gen(d, [], t, false, NoTest, FullSet) <= code
    ensures Holds(code, 0, Gen(d, [], t, false, NoTest, FullSet), []) && RulesAt(code, d, [], [])
  {
    hide Gen;
    var c := Gen(d, [], t, false, NoTest, FullSet);
    forall k: nat ensures !Calls(t, k) { if Calls(t, k) { CallsBelow(d, [], t, k); } }
    GenShape(d, [], t, false, NoTest, FullSet, {});
    NoOpen(c);
    assert forall x :: 0 <= x < |c| ==> SlotOK(code, 0 + x, c[x], []);
  }

  /** Compiling a pattern and matching it gives, wherever the match ends at all, the result that
      ordered choice defines. */
  method CompileAndRun(t: Tree, s: seq<byte>, start: nat, ghost f: nat) returns (res: Res)
    requires Compilable(t) && start <= |s| && Eval(f, [], t, s, start) != Out
    ensures res == Eval(f, [], t, s, start)
  {
    hide Eval, Halts, Compiled, Analysed;
    AnalysedSoon(t);
    var code := Compile(t);
    CompiledCorrect(t, f, s, start);
    res := Match(code.value, s, start, Eval(f, [], t, s, start));
  }

  /** For an accepted pattern it ends on every subject, with the result that ordered choice defines
      whatever fuel that definition needs. */
  method CompileAndMatch(d: nat, t: Tree, s: seq<byte>, start: nat) returns (res: Res)
    requires Accepted(d, t) && start <= |s|
    ensures res != Out
    ensures forall f: nat :: Eval(f, [], t, s, start) != Out ==> res == Eval(f, [], t, s, start)
    ensures exists f: nat :: res == Eval(f, [], t, s, start)
  {
    hide Eval, Compilable;
    ghost var f := AcceptedTerminates(d, t, s, start);
    AcceptedCompilable(d, t);
    res := CompileAndRun(t, s, start, f);
    forall f': nat | Eval(f', [], t, s, start) != Out ensures res == Eval(f', [], t, s, start) {
      if f <= f' { EvalMono(f, f', [], t, s, start); } else { EvalMono(f', f, [], t, s, start); }
    }
  }

  /** What the corrected checks accept can be compiled: all analyses end, no rules jump in a circle. */
  lemma AcceptedCompilable(d: nat, t: Tree)
    requires Accepted(d, t)
    ensures Compilable(t)
  {
    hide WellFormed, Analysed, JumpsEnd, CheckLoops, AllSure;
    AcceptedAnalysed(d, t);
    WellFormedFinal(d, Enough(t), [], t);
    SureJumpsEnd(d, Enough(t), [], t);
  }
}
