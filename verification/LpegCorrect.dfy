/**
 * The emitted code agrees with the meaning of the pattern.
 *
 * The statement looks backwards from the continuation: if the machine stops with answer `r` when
 * it is resumed where the pattern's result says (behind the code on success, in the backtrack
 * stack on failure), then it stops with `r` when started at the code of the pattern.
 */
module LpegCorrect {
  import opened LpegTree
  import opened LpegAnalysis
  import opened LpegVm
  import opened LpegCodegen
  import opened LpegLink

  /** What the surroundings owe to a pattern with result `res` whose code ends at `b`.
      With `opt` the innermost alternative is the one the pattern may reuse; otherwise a match in
      front of a character outside `fl` may also be turned into a failure. */
  ghost predicate Cont(code: Code, s: seq<byte>, b: int, stk: Stack, opt: bool, fl: set<byte>, res: Res, r: Res) {
    match res
    case Out => false
    case Fail => FailHalts(code, s, stk, r)
    case Succ(j) =>
      if opt then
        stk.Push? && stk.top.Alt?
        && (forall y: nat :: Halts(code, s, State(b, j, Push(Alt(stk.top.p, y), stk.rest)), r))
        && Halts(code, s, State(stk.top.p, j, stk.rest), r)
      else
        Halts(code, s, State(b, j, stk), r)
        && (j < |s| && s[j] !in fl ==> FailHalts(code, s, stk, r))
  }

  /** Everything about the place where a pattern's code stands. */
  ghost predicate Placed(code: Code, d: nat, g: seq<Tree>, ps: seq<nat>, t: Tree, a: int, opt: bool, tt: Test, fl: set<byte>) {
    Holds(code, a, Gen(d, g, t, opt, tt, fl), ps) && RulesAt(code, d, g, ps) && WellFormed(d, g, t)
    && (opt ==> fl == FullSet)
  }

  lemma HoldsJump(code: Code, a: int, op: Opcode, off: int, ps: seq<nat>)
    requires Holds(code, a, Jump(op, off), ps) && op != IOpenCall
    ensures IsLabel(code, a, op, a + off)
  {
    assert SlotOK(code, a + 0, Jump(op, off)[0], ps);
    assert SlotOK(code, a + 1, Jump(op, off)[1], ps);
  }

  /** Running a test: it falls through on a character of `cs` and jumps otherwise. */
  lemma TestRuns(code: Code, s: seq<byte>, a: int, cs: set<byte>, off: int, ps: seq<nat>, i: nat, stk: Stack, r: Res)
    requires Holds(code, a, GenTest(cs, off), ps) && i <= |s|
    requires i < |s| && s[i] in cs ==> Halts(code, s, State(a + TestLen(cs), i, stk), r)
    requires !(i < |s| && s[i] in cs) ==> Halts(code, s, State(a + off, i, stk), r)
    ensures Halts(code, s, State(a, i, stk), r)
  {
    var c := GenTest(cs, off);
    assert SlotOK(code, a + 0, c[0], ps);
    assert SlotOK(code, a + 1, c[1], ps);
    InFull(if i < |s| then {s[i]} else {});
    if CharsetType(cs).Generic? {
      assert SlotOK(code, a + 2, c[2], ps);
    }
    StepBack(code, s, State(a, i, stk), r);
  }

  lemma TestOfHolds(cs: set<byte>, s: seq<byte>, i: nat)
    requires i < |s| && s[i] in cs
    ensures TestHolds(TestOf(cs), s, i)
  {}

  lemma CharRuns(code: Code, s: seq<byte>, a: int, cs: set<byte>, tt: Test, ps: seq<nat>, i: nat, stk: Stack, r: Res)
    requires Holds(code, a, GenSet(cs, tt), ps) && i <= |s| && TestHolds(tt, s, i)
    requires i < |s| && s[i] in cs ==> Halts(code, s, State(a + |GenSet(cs, tt)|, i + 1, stk), r)
    requires !(i < |s| && s[i] in cs) ==> FailHalts(code, s, stk, r)
    ensures Halts(code, s, State(a, i, stk), r)
  {
    var c := GenSet(cs, tt);
    assert SlotOK(code, a + 0, c[0], ps);
    InFull(if i < |s| then {s[i]} else {});
    if |c| > 1 { assert SlotOK(code, a + 1, c[1], ps); }
    StepBack(code, s, State(a, i, stk), r);
  }

  lemma AnyRuns(code: Code, s: seq<byte>, a: int, ps: seq<nat>, i: nat, stk: Stack, r: Res)
    requires Holds(code, a, [I(IAny)], ps) && i <= |s|
    requires if i < |s| then Halts(code, s, State(a + 1, i + 1, stk), r) else FailHalts(code, s, stk, r)
    ensures Halts(code, s, State(a, i, stk), r)
  {
    HoldsSimple(code, a, I(IAny), ps);
    StepBack(code, s, State(a, i, stk), r);
  }

  lemma SingletonGen(c: byte, tt: Test)
    ensures GenSet({c}, tt) == GenChar(c, tt)
  {
    var cs: set<byte> := {c};
    assert c in cs && cs == {c};
    var other: byte := if c == 0 then 1 else 0;
    assert other in FullSet && other !in cs;
  }

  /** The correctness of code generation. */
  lemma {:induction false} GenCorrect(code: Code, s: seq<byte>, f: nat, d: nat, g: seq<Tree>, ps: seq<nat>, t: Tree,
                                      a: int, opt: bool, tt: Test, fl: set<byte>, i: nat, stk: Stack, r: Res)
    requires Placed(code, d, g, ps, t, a, opt, tt, fl) && i <= |s| && TestHolds(tt, s, i)
    requires Cont(code, s, a + |Gen(d, g, t, opt, tt, fl)|, stk, opt, fl, Eval(f, g, t, s, i), r)
    ensures Halts(code, s, State(a, i, stk), r)
    decreases f, t, 2
  {
    hide Gen, Placed, Cont, Eval, Step, Halts;
    match t
    case TChoice(_, _) => ChoiceCorrect(code, s, f, d, g, ps, t, a, opt, tt, fl, i, stk, r);
    case TRep(_) => RepCorrect(code, s, f, d, g, ps, t, a, opt, tt, fl, i, stk, r);
    case TNot(_) => NotCorrect(code, s, f, d, g, ps, t, a, opt, tt, fl, i, stk, r);
    case TAnd(_) => AndCorrect(code, s, f, d, g, ps, t, a, opt, tt, fl, i, stk, r);
    case TBehind(_, _) => BehindCorrect(code, s, f, d, g, ps, t, a, opt, tt, fl, i, stk, r);
    case TSeq(_, _) => SeqCorrect(code, s, f, d, g, ps, t, a, opt, tt, fl, i, stk, r);
    case TCall(_) => CallCorrect(code, s, f, d, g, ps, t, a, opt, tt, fl, i, stk, r);
    case TGrammar(_) => GrammarCorrect(code, s, f, d, g, ps, t, a, opt, tt, fl, i, stk, r);
    case _ => LeafCorrect(code, s, f, d, g, ps, t, a, opt, tt, fl, i, stk, r);
  }

  lemma LeafCorrect(code: Code, s: seq<byte>, f: nat, d: nat, g: seq<Tree>, ps: seq<nat>, t: Tree,
                    a: int, opt: bool, tt: Test, fl: set<byte>, i: nat, stk: Stack, r: Res)
    requires t.TChar? || t.TSet? || t.TAny? || t.TTrue? || t.TFalse?
    requires Placed(code, d, g, ps, t, a, opt, tt, fl) && i <= |s| && TestHolds(tt, s, i)
    requires Cont(code, s, a + |Gen(d, g, t, opt, tt, fl)|, stk, opt, fl, Eval(f, g, t, s, i), r)
    ensures Halts(code, s, State(a, i, stk), r)
  {
    hide Step, Halts;
    var res, b := Eval(f, g, t, s, i), a + |Gen(d, g, t, opt, tt, fl)|;
    if res.Succ? { Continues(code, s, b, stk, opt, fl, res.pos, r); }
    match t
    case TChar(c) =>
      SingletonGen(c, tt);
      CharRuns(code, s, a, {c}, tt, ps, i, stk, r);
    case TSet(cs) => CharRuns(code, s, a, cs, tt, ps, i, stk, r);
    case TAny => AnyRuns(code, s, a, ps, i, stk, r);
    case TTrue =>
    case TFalse =>
      HoldsSimple(code, a, I(IFail), ps);
      RunFail(code, s, a, i, stk, r);
  }

  lemma {:induction false} SeqCorrect(code: Code, s: seq<byte>, f: nat, d: nat, g: seq<Tree>, ps: seq<nat>, t: Tree,
                                      a: int, opt: bool, tt: Test, fl: set<byte>, i: nat, stk: Stack, r: Res)
    requires t.TSeq?
    requires Placed(code, d, g, ps, t, a, opt, tt, fl) && i <= |s| && TestHolds(tt, s, i)
    requires Cont(code, s, a + |Gen(d, g, t, opt, tt, fl)|, stk, opt, fl, Eval(f, g, t, s, i), r)
    ensures Halts(code, s, State(a, i, stk), r)
    decreases f, t, 0
  {
    hide Gen, GetFirst, HeadFail, FixedLen, CheckAux, Step, Halts, Holds, Backtrack, NeedFollow, RulesAt;
    GenUnfolds(d, g, t, opt, tt, fl);
    var p1, p2 := t.p1, t.p2;
    var fl1 := if NeedFollow(p1) then GetFirst(g, p2, fl, d).cs else FullSet;
    var tt2 := if FixedLen(g, p1, d) != 0 then NoTest else tt;
    var c1, c2 := Gen(d, g, p1, false, tt, fl1), Gen(d, g, p2, opt, tt2, fl);
    Split(code, a, c1, c2, ps);
    var r1 := Eval(f, g, p1, s, i);
    if r1.Succ? {
      if FixedLen(g, p1, d) == 0 { FixedLenSound(f, g, p1, d, s, i); }
      GenCorrect(code, s, f, d, g, ps, p2, a + |c1|, opt, tt2, fl, r1.pos, stk, r);
      SeqFollow(code, s, f, d, g, p2, a + |c1 + c2|, opt, fl, fl1, r1.pos, stk, r);
    }
    GenCorrect(code, s, f, d, g, ps, p1, a, false, tt, fl1, i, stk, r);
  }

  /** When the first pattern stops in front of a character that cannot start the second, the whole
      sequence fails, or its continuation does. */
  lemma SeqFollow(code: Code, s: seq<byte>, f: nat, d: nat, g: seq<Tree>, p2: Tree, b: int, opt: bool,
                  fl: set<byte>, fl1: set<byte>, j: nat, stk: Stack, r: Res)
    requires j <= |s| && (fl1 == GetFirst(g, p2, fl, d).cs || fl1 == FullSet) && (opt ==> fl == FullSet)
    requires Cont(code, s, b, stk, opt, fl, Eval(f, g, p2, s, j), r)
    ensures j < |s| && s[j] !in fl1 ==> FailHalts(code, s, stk, r)
  {
    hide Halts, GetFirst, Backtrack;
    if j < |s| {
      InFull({s[j]});
      if s[j] !in fl1 { FirstSound(f, g, p2, fl, d, s, j); }
    }
  }

  lemma {:induction false} BehindCorrect(code: Code, s: seq<byte>, f: nat, d: nat, g: seq<Tree>, ps: seq<nat>, t: Tree,
                                         a: int, opt: bool, tt: Test, fl: set<byte>, i: nat, stk: Stack, r: Res)
    requires t.TBehind?
    requires Placed(code, d, g, ps, t, a, opt, tt, fl) && i <= |s| && TestHolds(tt, s, i)
    requires Cont(code, s, a + |Gen(d, g, t, opt, tt, fl)|, stk, opt, fl, Eval(f, g, t, s, i), r)
    ensures Halts(code, s, State(a, i, stk), r)
    decreases f, t, 0
  {
    hide Gen, GetFirst, HeadFail, FixedLen, CheckAux, Step, Halts, Holds;
    GenUnfolds(d, g, t, opt, tt, fl);
    var n, p := t.n, t.p;
    var c := Gen(d, g, p, false, NoTest, FullSet);
    var pre: Code := if n > 0 then [Op(IBehind, n, 0)] else [];
    Split(code, a, pre, c, ps);
    if n > 0 { HoldsSimple(code, a, Op(IBehind, n, 0), ps); }
    if n <= i {
      var rp := Eval(f, g, p, s, i - n);
      if rp.Succ? {
        FixedLenSound(f, g, p, d, s, i - n);
        Continues(code, s, a + |pre| + |c|, stk, opt, fl, i, r);
      }
      ContFull(code, s, a + |pre| + |c|, stk, rp, r);
      GenCorrect(code, s, f, d, g, ps, p, a + |pre|, false, NoTest, FullSet, i - n, stk, r);
    }
    if n > 0 { RunBehind(code, s, a, n, i, stk, r); }
  }

  lemma Split3(code: Code, a: int, x: Code, y: Code, z: Code, ps: seq<nat>)
    requires Holds(code, a, x + y + z, ps)
    ensures Holds(code, a, x, ps) && Holds(code, a + |x|, y, ps) && Holds(code, a + |x| + |y|, z, ps)
  {
    Split(code, a, x + y, z, ps);
    Split(code, a, x, y, ps);
  }

  lemma Split4(code: Code, a: int, x: Code, y: Code, z: Code, w: Code, ps: seq<nat>)
    requires Holds(code, a, x + y + z + w, ps)
    ensures Holds(code, a, x, ps) && Holds(code, a + |x|, y, ps) && Holds(code, a + |x| + |y|, z, ps)
            && Holds(code, a + |x| + |y| + |z|, w, ps)
  {
    Split(code, a, x + y + z, w, ps);
    Split3(code, a, x, y, z, ps);
  }

  lemma HoldsSimple(code: Code, a: int, x: Slot, ps: seq<nat>)
    requires Holds(code, a, [x], ps) && x != Hole && !IsOpen(x)
    ensures 0 <= a < |code| && code[a] == x
  {
    assert SlotOK(code, a + 0, [x][0], ps);
  }

  lemma HoldsInside(code: Code, a: int, seg: Code, ps: seq<nat>)
    requires Holds(code, a, seg, ps)
    ensures 0 <= a && a + |seg| <= |code|
  {}

  /** An alternative is determined by its two fields. */
  lemma SameStack(stk: Stack)
    requires stk.Push? && stk.top.Alt?
    ensures stk == Push(Alt(stk.top.p, stk.top.pos), stk.rest)
  {}

  /** How a pattern that succeeds may go on at the end of its code. */
  lemma Continues(code: Code, s: seq<byte>, b: int, stk: Stack, opt: bool, fl: set<byte>, j: nat, r: Res)
    requires Cont(code, s, b, stk, opt, fl, Succ(j), r)
    ensures Halts(code, s, State(b, j, stk), r)
  {
    if opt { SameStack(stk); }
  }

  /** Nothing is outside the full set, so the full follow set asks for the plain continuation. */
  lemma ContFull(code: Code, s: seq<byte>, b: int, stk: Stack, res: Res, r: Res)
    requires res.Succ? ==> Halts(code, s, State(b, res.pos, stk), r)
    requires res.Fail? ==> FailHalts(code, s, stk, r)
    requires res != Out
    ensures Cont(code, s, b, stk, false, FullSet, res, r)
  {
    if res.Succ? && res.pos < |s| { InFull({s[res.pos]}); }
  }

  lemma AndLayout(code: Code, d: nat, g: seq<Tree>, ps: seq<nat>, t: Tree, a: int, tt: Test)
    requires t.TAnd? && Holds(code, a, GenAnd(d, g, t, tt), ps)
    ensures var n, c := FixedLen(g, t.p, d), Gen(d, g, t.p, false, tt, FullSet);
            var e, len := a + |c|, |GenAnd(d, g, t, tt)|;
            if 0 <= n <= MAXBEHIND then
              Holds(code, a, c, ps)
              && (if n == 0 then len == |c| else len == |c| + 1 && 0 <= e < |code| && code[e] == Op(IBehind, n, 0))
            else
              len == |c| + 5 && IsLabel(code, a, IChoice, e + 4) && Holds(code, a + 2, c, ps)
              && IsLabel(code, e + 2, IBackCommit, e + 5) && IsOp(code, e + 4, IFail)
  {
    hide Gen, FixedLen, Holds;
    var n, c := FixedLen(g, t.p, d), Gen(d, g, t.p, false, tt, FullSet);
    if 0 <= n <= MAXBEHIND {
      var post: Code := if n > 0 then [Op(IBehind, n, 0)] else [];
      Split(code, a, c, post, ps);
      if n > 0 { HoldsSimple(code, a + |c|, Op(IBehind, n, 0), ps); }
    } else {
      Split4(code, a, Jump(IChoice, 4 + |c|), c, Jump(IBackCommit, 3), [I(IFail)], ps);
      HoldsJump(code, a, IChoice, 4 + |c|, ps);
      HoldsJump(code, a + 2 + |c|, IBackCommit, 3, ps);
      HoldsSimple(code, a + 4 + |c|, I(IFail), ps);
    }
  }

  lemma NotLayout(code: Code, d: nat, g: seq<Tree>, ps: seq<nat>, t: Tree, a: int)
    requires t.TNot? && Holds(code, a, GenNot(d, g, t), ps)
    ensures var c, fs := Gen(d, g, t.p, false, NoTest, FullSet), GetFirst(g, t.p, FullSet, d);
            var n, b := TestIfLen(fs), a + |GenNot(d, g, t)|;
            IsOp(code, b - 1, if HeadFail(g, t.p, d) then IFail else IFailTwice)
            && Holds(code, a, GenTestIf(fs, b - a), ps)
            && (if HeadFail(g, t.p, d) then b == a + n + 1
                else b == a + n + 3 + |c| && IsLabel(code, a + n, IChoice, b) && Holds(code, a + n + 2, c, ps))
  {
    hide Gen, GetFirst, HeadFail, Holds, CharsetType, GenTest, TestLen;
    var fs := GetFirst(g, t.p, FullSet, d);
    var n := TestIfLen(fs);
    if HeadFail(g, t.p, d) {
      Split(code, a, GenTestIf(fs, n + 1), [I(IFail)], ps);
      HoldsSimple(code, a + n, I(IFail), ps);
    } else {
      var c := Gen(d, g, t.p, false, NoTest, FullSet);
      Split4(code, a, GenTestIf(fs, n + 3 + |c|), Jump(IChoice, 3 + |c|), c, [I(IFailTwice)], ps);
      HoldsJump(code, a + n, IChoice, 3 + |c|, ps);
      HoldsSimple(code, a + n + 2 + |c|, I(IFailTwice), ps);
    }
  }

  lemma HeadChoiceLayout(code: Code, d: nat, g: seq<Tree>, ps: seq<nat>, t: Tree, a: int, opt: bool, fl: set<byte>)
    requires t.TChoice? && ByHead(d, g, t.p1, t.p2, fl) && Holds(code, a, GenChoice(d, g, t, opt, fl), ps)
    ensures var fs := GetFirst(g, t.p1, FullSet, d);
            var c1, c2 := Gen(d, g, t.p1, false, TestOf(fs.cs), fl), Gen(d, g, t.p2, opt, NoTest, fl);
            var n := TestLen(fs.cs);
            var m, b := a + n + |c1|, a + |GenChoice(d, g, t, opt, fl)|;
            Holds(code, a, GenTest(fs.cs, b - |c2| - a), ps) && Holds(code, a + n, c1, ps) && Holds(code, b - |c2|, c2, ps)
            && (if t.p2.TTrue? then b == m + |c2| else b == m + 2 + |c2| && IsLabel(code, m, IJmp, b))
  {
    hide Gen, GetFirst, HeadFail, Holds, CharsetType, GenTest, TestLen, TestOf, ByHead;
    var fs := GetFirst(g, t.p1, FullSet, d);
    var c1, c2 := Gen(d, g, t.p1, false, TestOf(fs.cs), fl), Gen(d, g, t.p2, opt, NoTest, fl);
    var jmp := if t.p2.TTrue? then [] else Jump(IJmp, 2 + |c2|);
    var n := TestLen(fs.cs);
    Split4(code, a, GenTest(fs.cs, n + |c1| + |jmp|), c1, jmp, c2, ps);
    if !t.p2.TTrue? { HoldsJump(code, a + n + |c1|, IJmp, 2 + |c2|, ps); }
  }

  lemma FullChoiceLayout(code: Code, d: nat, g: seq<Tree>, ps: seq<nat>, t: Tree, a: int, opt: bool, fl: set<byte>)
    requires t.TChoice? && !ByHead(d, g, t.p1, t.p2, fl) && !(opt && t.p2.TTrue?)
    requires Holds(code, a, GenChoice(d, g, t, opt, fl), ps)
    ensures var fs := GetFirst(g, t.p1, FullSet, d);
            var c1, c2 := Gen(d, g, t.p1, t.p2.TTrue?, TestOfIf(fs), FullSet), Gen(d, g, t.p2, opt, NoTest, fl);
            var n, b := TestIfLen(fs), a + |GenChoice(d, g, t, opt, fl)|;
            var l1 := b - |c2|;
            b == a + n + 4 + |c1| + |c2| && Holds(code, a, GenTestIf(fs, l1 - a), ps) && Holds(code, a + n + 2, c1, ps)
            && Holds(code, l1, c2, ps) && IsLabel(code, a + n, IChoice, l1) && IsLabel(code, l1 - 2, ICommit, b)
  {
    hide Gen, GetFirst, HeadFail, Holds, CharsetType, GenTest, TestLen, TestOf, ByHead;
    var fs := GetFirst(g, t.p1, FullSet, d);
    var c1, c2 := Gen(d, g, t.p1, t.p2.TTrue?, TestOfIf(fs), FullSet), Gen(d, g, t.p2, opt, NoTest, fl);
    var n := TestIfLen(fs);
    var head := GenTestIf(fs, n + 4 + |c1|);
    Split(code, a, head + Jump(IChoice, 4 + |c1|) + c1 + Jump(ICommit, 2 + |c2|), c2, ps);
    Split4(code, a, head, Jump(IChoice, 4 + |c1|), c1, Jump(ICommit, 2 + |c2|), ps);
    HoldsJump(code, a + n, IChoice, 4 + |c1|, ps);
    HoldsJump(code, a + n + 2 + |c1|, ICommit, 2 + |c2|, ps);
  }

  lemma RepLayout(code: Code, d: nat, g: seq<Tree>, ps: seq<nat>, t: Tree, a: int, opt: bool, fl: set<byte>)
    requires t.TRep? && !ToCharset(t.p).YesSet? && !ByHeadRep(d, g, t.p, fl)
    requires Holds(code, a, GenRep(d, g, t, opt, fl), ps)
    ensures var c, fs := Gen(d, g, t.p, false, NoTest, FullSet), GetFirst(g, t.p, FullSet, d);
            var n, b := TestIfLen(fs), a + |GenRep(d, g, t, opt, fl)|;
            b == a + n + 4 + |c| && Holds(code, a, GenTestIf(fs, b - a), ps) && Holds(code, a + n + 2, c, ps)
            && (if opt then IsLabel(code, a + n, IPartialCommit, a + n + 2) else IsLabel(code, a + n, IChoice, b))
            && IsLabel(code, b - 2, IPartialCommit, a + n + 2)
  {
    hide Gen, GetFirst, HeadFail, Holds, CharsetType, GenTest, TestLen, ByHeadRep;
    var c, fs := Gen(d, g, t.p, false, NoTest, FullSet), GetFirst(g, t.p, FullSet, d);
    var n := TestIfLen(fs);
    var enter := if opt then Jump(IPartialCommit, 2) else Jump(IChoice, 4 + |c|);
    Split4(code, a, GenTestIf(fs, n + 4 + |c|), enter, c, Jump(IPartialCommit, -|c|), ps);
    HoldsJump(code, a + n + 2 + |c|, IPartialCommit, -|c|, ps);
    if opt { HoldsJump(code, a + n, IPartialCommit, 2, ps); } else { HoldsJump(code, a + n, IChoice, 4 + |c|, ps); }
  }

  lemma HeadRepLayout(code: Code, d: nat, g: seq<Tree>, ps: seq<nat>, t: Tree, a: int, opt: bool, fl: set<byte>)
    requires t.TRep? && !ToCharset(t.p).YesSet? && ByHeadRep(d, g, t.p, fl)
    requires Holds(code, a, GenRep(d, g, t, opt, fl), ps)
    ensures var fs := GetFirst(g, t.p, FullSet, d);
            var c, n, b := Gen(d, g, t.p, false, TestOf(fs.cs), FullSet), TestLen(fs.cs), a + |GenRep(d, g, t, opt, fl)|;
            b == a + n + |c| + 2 && Holds(code, a, GenTest(fs.cs, b - a), ps) && Holds(code, a + n, c, ps)
            && IsLabel(code, b - 2, IJmp, a)
  {
    hide Gen, GetFirst, HeadFail, Holds, CharsetType, GenTest, TestLen, TestOf, ByHeadRep;
    var fs := GetFirst(g, t.p, FullSet, d);
    var c, n := Gen(d, g, t.p, false, TestOf(fs.cs), FullSet), TestLen(fs.cs);
    Split3(code, a, GenTest(fs.cs, n + |c| + 2), c, Jump(IJmp, -(n + |c|)), ps);
    HoldsJump(code, a + n + |c|, IJmp, -(n + |c|), ps);
  }

  lemma {:induction false} AndCorrect(code: Code, s: seq<byte>, f: nat, d: nat, g: seq<Tree>, ps: seq<nat>, t: Tree,
                                      a: int, opt: bool, tt: Test, fl: set<byte>, i: nat, stk: Stack, r: Res)
    requires t.TAnd?
    requires Placed(code, d, g, ps, t, a, opt, tt, fl) && i <= |s| && TestHolds(tt, s, i)
    requires Cont(code, s, a + |Gen(d, g, t, opt, tt, fl)|, stk, opt, fl, Eval(f, g, t, s, i), r)
    ensures Halts(code, s, State(a, i, stk), r)
    decreases f, t, 0
  {
    hide Gen, GenAnd, GetFirst, HeadFail, FixedLen, CheckAux, Step, Halts, Holds;
    GenUnfolds(d, g, t, opt, tt, fl);
    AndLayout(code, d, g, ps, t, a, tt);
    var n := FixedLen(g, t.p, d);
    var c := Gen(d, g, t.p, false, tt, FullSet);
    var rp := Eval(f, g, t.p, s, i);
    var b := a + |GenAnd(d, g, t, tt)|;
    if rp.Succ? { Continues(code, s, b, stk, opt, fl, i, r); }
    if 0 <= n <= MAXBEHIND {
      if rp.Succ? {
        FixedLenSound(f, g, t.p, d, s, i);
        if n > 0 { RunBehind(code, s, a + |c|, n, rp.pos, stk, r); }
      }
      ContFull(code, s, a + |c|, stk, rp, r);
      GenCorrect(code, s, f, d, g, ps, t.p, a, false, tt, FullSet, i, stk, r);
    } else {
      var l1 := b - 1;
      var inner := Push(Alt(l1, i), stk);
      if rp.Succ? {
        RunBackCommit(code, s, l1 - 2, b, rp.pos, Alt(l1, i), stk, r);
      } else {
        RunFail(code, s, l1, i, stk, r);
      }
      ContFull(code, s, l1 - 2, inner, rp, r);
      GenCorrect(code, s, f, d, g, ps, t.p, a + 2, false, tt, FullSet, i, inner, r);
      RunChoice(code, s, a, l1, i, stk, r);
    }
  }

  lemma {:induction false} NotCorrect(code: Code, s: seq<byte>, f: nat, d: nat, g: seq<Tree>, ps: seq<nat>, t: Tree,
                                      a: int, opt: bool, tt: Test, fl: set<byte>, i: nat, stk: Stack, r: Res)
    requires t.TNot?
    requires Placed(code, d, g, ps, t, a, opt, tt, fl) && i <= |s| && TestHolds(tt, s, i)
    requires Cont(code, s, a + |Gen(d, g, t, opt, tt, fl)|, stk, opt, fl, Eval(f, g, t, s, i), r)
    ensures Halts(code, s, State(a, i, stk), r)
    decreases f, t, 0
  {
    hide Gen, GenNot, GetFirst, HeadFail, FixedLen, CheckAux, Step, Halts, Holds, CharsetType, GenTest, TestLen;
    GenUnfolds(d, g, t, opt, tt, fl);
    NotLayout(code, d, g, ps, t, a);
    var p := t.p;
    var fs := GetFirst(g, p, FullSet, d);
    var rp := Eval(f, g, p, s, i);
    var n, b := TestIfLen(fs), a + |GenNot(d, g, t)|;
    if rp.Fail? { Continues(code, s, b, stk, opt, fl, i, r); }
    if HeadFail(g, p, d) {
      HeadFailNotEmpty(g, p, FullSet, d);
      HeadFailSound(f, g, p, d, s, i);
      if rp.Succ? { RunFail(code, s, a + n, i, stk, r); }
    } else {
      var inner := Push(Alt(b, i), stk);
      if rp.Succ? { RunFailTwice(code, s, b - 1, rp.pos, Alt(b, i), stk, r); }
      ContFull(code, s, b - 1, inner, rp, r);
      GenCorrect(code, s, f, d, g, ps, p, a + n + 2, false, NoTest, FullSet, i, inner, r);
      RunChoice(code, s, a + n, b, i, stk, r);
    }
    if !fs.empty {
      FirstRejects(f, g, p, d, s, i);
      TestRuns(code, s, a, fs.cs, b - a, ps, i, stk, r);
    }
  }

  /** When a test on the first set jumps, the pattern fails. */
  lemma FirstRejects(f: nat, g: seq<Tree>, p: Tree, d: nat, s: seq<byte>, i: nat)
    requires i <= |s| && Eval(f, g, p, s, i) != Out && !GetFirst(g, p, FullSet, d).empty
    ensures !(i < |s| && s[i] in GetFirst(g, p, FullSet, d).cs) ==> Eval(f, g, p, s, i) == Fail
  {
    if i == |s| {
      FirstAtEnd(f, g, p, FullSet, d, s);
    } else if s[i] !in GetFirst(g, p, FullSet, d).cs {
      FirstSound(f, g, p, FullSet, d, s, i);
      InFull({s[i]});
    }
  }

  lemma {:induction false} ChoiceCorrect(code: Code, s: seq<byte>, f: nat, d: nat, g: seq<Tree>, ps: seq<nat>, t: Tree,
                                         a: int, opt: bool, tt: Test, fl: set<byte>, i: nat, stk: Stack, r: Res)
    requires t.TChoice?
    requires Placed(code, d, g, ps, t, a, opt, tt, fl) && i <= |s| && TestHolds(tt, s, i)
    requires Cont(code, s, a + |Gen(d, g, t, opt, tt, fl)|, stk, opt, fl, Eval(f, g, t, s, i), r)
    ensures Halts(code, s, State(a, i, stk), r)
    decreases f, t, 1
  {
    hide Gen, GetFirst, HeadFail, FixedLen, CheckAux, Step, Halts, Holds, CharsetType;
    var p1, p2 := t.p1, t.p2;
    GenUnfolds(d, g, t, opt, tt, fl);
    if ByHead(d, g, p1, p2, fl) {
      HeadChoiceCorrect(code, s, f, d, g, ps, t, a, opt, tt, fl, i, stk, r);
    } else if opt && p2.TTrue? {
      var c := Gen(d, g, p1, true, NoTest, FullSet);
      Split(code, a, Jump(IPartialCommit, 2), c, ps);
      HoldsJump(code, a, IPartialCommit, 2, ps);
      assert Eval(f, g, p2, s, i) == Succ(i);
      var inner := Push(Alt(stk.top.p, i), stk.rest);
      GenCorrect(code, s, f, d, g, ps, p1, a + 2, true, NoTest, FullSet, i, inner, r);
      RunPartialCommit(code, s, a, a + 2, i, stk.top, stk.rest, r);
    } else {
      FullChoiceCorrect(code, s, f, d, g, ps, t, a, opt, tt, fl, i, stk, r);
    }
  }

  lemma {:induction false} HeadChoiceCorrect(code: Code, s: seq<byte>, f: nat, d: nat, g: seq<Tree>, ps: seq<nat>, t: Tree,
                                             a: int, opt: bool, tt: Test, fl: set<byte>, i: nat, stk: Stack, r: Res)
    requires t.TChoice? && ByHead(d, g, t.p1, t.p2, fl)
    requires Placed(code, d, g, ps, t, a, opt, tt, fl) && i <= |s| && TestHolds(tt, s, i)
    requires Cont(code, s, a + |Gen(d, g, t, opt, tt, fl)|, stk, opt, fl, Eval(f, g, t, s, i), r)
    ensures Halts(code, s, State(a, i, stk), r)
    decreases f, t, 0
  {
    hide Gen, GenChoice, GetFirst, HeadFail, FixedLen, CheckAux, Step, Halts, Holds, CharsetType, GenTest, TestLen, TestOf;
    GenUnfolds(d, g, t, opt, tt, fl);
    HeadChoiceLayout(code, d, g, ps, t, a, opt, fl);
    var p1, p2 := t.p1, t.p2;
    var fs := GetFirst(g, p1, FullSet, d);
    var c1, c2 := Gen(d, g, p1, false, TestOf(fs.cs), fl), Gen(d, g, p2, opt, NoTest, fl);
    var n, b := TestLen(fs.cs), a + |GenChoice(d, g, t, opt, fl)|;
    var m, l1 := a + n + |c1|, b - |c2|;
    var r1 := Eval(f, g, p1, s, i);
    if HeadFail(g, p1, d) { HeadFailNotEmpty(g, p1, FullSet, d); }
    FirstRejects(f, g, p1, d, s, i);
    if i < |s| && s[i] in fs.cs {
      TestOfHolds(fs.cs, s, i);
      if r1.Fail? {
        // only without headfail: the second pattern and what follows it cannot take s[i] either
        if HeadFail(g, p1, d) { HeadFailSound(f, g, p1, d, s, i); }
        FirstSound(f, g, p2, fl, d, s, i);
        InFull({s[i]});
      } else {
        Continues(code, s, b, stk, opt, fl, r1.pos, r);
        if r1.pos < |s| { InFull({s[r1.pos]}); }
        if p2.TTrue? { EmptyTrue(d, g, opt, fl); } else { RunJmp(code, s, m, b, r1.pos, stk, r); }
      }
      GenCorrect(code, s, f, d, g, ps, p1, a + n, false, TestOf(fs.cs), fl, i, stk, r);
    } else {
      GenCorrect(code, s, f, d, g, ps, p2, l1, opt, NoTest, fl, i, stk, r);
    }
    TestRuns(code, s, a, fs.cs, l1 - a, ps, i, stk, r);
  }

  lemma EmptyTrue(d: nat, g: seq<Tree>, opt: bool, fl: set<byte>)
    ensures Gen(d, g, TTrue, opt, NoTest, fl) == []
  {}

  lemma {:induction false} FullChoiceCorrect(code: Code, s: seq<byte>, f: nat, d: nat, g: seq<Tree>, ps: seq<nat>, t: Tree,
                                             a: int, opt: bool, tt: Test, fl: set<byte>, i: nat, stk: Stack, r: Res)
    requires t.TChoice? && !ByHead(d, g, t.p1, t.p2, fl) && !(opt && t.p2.TTrue?)
    requires Placed(code, d, g, ps, t, a, opt, tt, fl) && i <= |s| && TestHolds(tt, s, i)
    requires Cont(code, s, a + |Gen(d, g, t, opt, tt, fl)|, stk, opt, fl, Eval(f, g, t, s, i), r)
    ensures Halts(code, s, State(a, i, stk), r)
    decreases f, t, 0
  {
    hide Gen, GenChoice, GetFirst, HeadFail, FixedLen, CheckAux, Step, Halts, Holds, CharsetType, GenTest, TestLen, TestOf, ByHead;
    GenUnfolds(d, g, t, opt, tt, fl);
    FullChoiceLayout(code, d, g, ps, t, a, opt, fl);
    var p1, p2 := t.p1, t.p2;
    var fs := GetFirst(g, p1, FullSet, d);
    var c1, c2 := Gen(d, g, p1, p2.TTrue?, TestOfIf(fs), FullSet), Gen(d, g, p2, opt, NoTest, fl);
    var n, b := TestIfLen(fs), a + |GenChoice(d, g, t, opt, fl)|;
    var l1 := b - |c2|;
    var inner := Push(Alt(l1, i), stk);
    var r1 := Eval(f, g, p1, s, i);
    if r1.Fail? {
      GenCorrect(code, s, f, d, g, ps, p2, l1, opt, NoTest, fl, i, stk, r);
    } else {
      Continues(code, s, b, stk, opt, fl, r1.pos, r);
      forall y: nat ensures Halts(code, s, State(l1 - 2, r1.pos, Push(Alt(l1, y), stk)), r) {
        RunCommit(code, s, l1 - 2, b, r1.pos, Alt(l1, y), stk, r);
      }
      if p2.TTrue? { EmptyTrue(d, g, opt, fl); }
    }
    FullChoiceFirst(code, s, l1, stk, p2.TTrue?, r1, i, r);
    if !fs.empty {
      FirstRejects(f, g, p1, d, s, i);
      if i < |s| && s[i] in fs.cs { TestOfHolds(fs.cs, s, i); }
    }
    if fs.empty || (i < |s| && s[i] in fs.cs) {
      GenCorrect(code, s, f, d, g, ps, p1, a + n + 2, p2.TTrue?, TestOfIf(fs), FullSet, i, inner, r);
      RunChoice(code, s, a + n, l1, i, stk, r);
    }
    if !fs.empty { TestRuns(code, s, a, fs.cs, l1 - a, ps, i, stk, r); }
  }

  /** The alternative pushed for a choice is what the first pattern needs around it. */
  lemma FullChoiceFirst(code: Code, s: seq<byte>, l1: int, stk: Stack, opt1: bool, r1: Res, i: nat, r: Res)
    requires r1.Succ? ==> forall y: nat :: Halts(code, s, State(l1 - 2, r1.pos, Push(Alt(l1, y), stk)), r)
    requires r1.Succ? && opt1 ==> Halts(code, s, State(l1, r1.pos, stk), r)
    requires r1.Fail? ==> Halts(code, s, State(l1, i, stk), r)
    requires r1 != Out
    ensures Cont(code, s, l1 - 2, Push(Alt(l1, i), stk), opt1, FullSet, r1, r)
  {
    if r1.Succ? && r1.pos < |s| { InFull({s[r1.pos]}); }
  }

  lemma {:induction false} RepCorrect(code: Code, s: seq<byte>, f: nat, d: nat, g: seq<Tree>, ps: seq<nat>, t: Tree,
                                      a: int, opt: bool, tt: Test, fl: set<byte>, i: nat, stk: Stack, r: Res)
    requires t.TRep?
    requires Placed(code, d, g, ps, t, a, opt, tt, fl) && i <= |s| && TestHolds(tt, s, i)
    requires Cont(code, s, a + |Gen(d, g, t, opt, tt, fl)|, stk, opt, fl, Eval(f, g, t, s, i), r)
    ensures Halts(code, s, State(a, i, stk), r)
    decreases f, t, 1
  {
    hide Gen, GenRep, GetFirst, HeadFail, FixedLen, CheckAux, Step, Halts, Holds, CharsetType, GenTest, TestLen;
    GenUnfolds(d, g, t, opt, tt, fl);
    var p := t.p;
    var fs := GetFirst(g, p, FullSet, d);
    RepSucceeds(f, g, p, s, i);
    var b := a + |GenRep(d, g, t, opt, fl)|;
    Continues(code, s, b, stk, opt, fl, Eval(f, g, t, s, i).pos, r);
    if ToCharset(p).YesSet? {
      SpanIsRep(f, g, p, s, i);
      SpanCode(d, g, t, opt, fl);
      SpanRuns(code, s, a, ToCharset(p).cs, ps, i, stk, r);
    } else if ByHeadRep(d, g, p, fl) {
      HeadRepCorrect(code, s, f, d, g, ps, t, a, opt, tt, fl, i, stk, r);
    } else {
      RepLayout(code, d, g, ps, t, a, opt, fl);
      var n := TestIfLen(fs);
      var l1 := a + n + 2;
      if opt {
        RepLoop(code, s, f, d, g, ps, t, l1, stk.top.p, stk.rest, i, r);
        RunPartialCommit(code, s, a + n, l1, i, stk.top, stk.rest, r);
      } else {
        RepLoop(code, s, f, d, g, ps, t, l1, b, stk, i, r);
        RunChoice(code, s, a + n, b, i, stk, r);
      }
      if !fs.empty {
        FirstRejects(f, g, p, d, s, i);
        TestRuns(code, s, a, fs.cs, b - a, ps, i, stk, r);
      }
    }
  }

  lemma {:induction false} RepSucceeds(f: nat, g: seq<Tree>, p: Tree, s: seq<byte>, i: nat)
    requires i <= |s|
    ensures Eval(f, g, TRep(p), s, i) != Fail
    decreases f
  {
    if f > 0 {
      var r := Eval(f, g, p, s, i);
      if r.Succ? { RepSucceeds(f - 1, g, p, s, r.pos); }
    }
  }

  lemma SpanCode(d: nat, g: seq<Tree>, t: Tree, opt: bool, fl: set<byte>)
    requires t.TRep? && ToCharset(t.p).YesSet?
    ensures GenRep(d, g, t, opt, fl) == [I(ISpan)] + SetBuf(ToCharset(t.p).cs)
    ensures |GenRep(d, g, t, opt, fl)| == CHARSETINSTSIZE
  {}

  lemma SpanRuns(code: Code, s: seq<byte>, a: int, cs: set<byte>, ps: seq<nat>, i: nat, stk: Stack, r: Res)
    requires i <= |s| && Holds(code, a, [I(ISpan)] + SetBuf(cs), ps)
    requires Halts(code, s, State(a + CHARSETINSTSIZE, SpanEnd(s, i, cs), stk), r)
    ensures Halts(code, s, State(a, i, stk), r)
  {
    var c := [I(ISpan)] + SetBuf(cs);
    assert c[1] == Buf(cs);
    assert SlotOK(code, a + 0, c[0], ps) && SlotOK(code, a + 1, c[1], ps);
    StepBack(code, s, State(a, i, stk), r);
  }

  lemma {:induction false} SpanIsRep(f: nat, g: seq<Tree>, p: Tree, s: seq<byte>, i: nat)
    requires ToCharset(p).YesSet? && i <= |s| && Eval(f, g, TRep(p), s, i) != Out
    ensures Eval(f, g, TRep(p), s, i) == Succ(SpanEnd(s, i, ToCharset(p).cs))
    decreases f
  {
    if i < |s| {
      InFull({s[i]});
      if s[i] in ToCharset(p).cs { SpanIsRep(f - 1, g, p, s, i + 1); }
    }
  }

  /** The loop `L1: <p>; partialcommit L1` leaves through the alternative on top of the stack. */
  lemma {:induction false} RepLoop(code: Code, s: seq<byte>, f: nat, d: nat, g: seq<Tree>, ps: seq<nat>, t: Tree,
                                   l1: int, alt: int, rest: Stack, i: nat, r: Res)
    requires t.TRep? && i <= |s| && Placed(code, d, g, ps, t.p, l1, false, NoTest, FullSet)
    requires var c := Gen(d, g, t.p, false, NoTest, FullSet);
             IsLabel(code, l1 + |c|, IPartialCommit, l1)
    requires Eval(f, g, t, s, i).Succ? && Halts(code, s, State(alt, Eval(f, g, t, s, i).pos, rest), r)
    ensures Halts(code, s, State(l1, i, Push(Alt(alt, i), rest)), r)
    decreases f, t, 0
  {
    hide Gen, GetFirst, HeadFail, FixedLen, CheckAux, Step, Halts, Holds;
    var c := Gen(d, g, t.p, false, NoTest, FullSet);
    var stk := Push(Alt(alt, i), rest);
    var rp := Eval(f, g, t.p, s, i);
    if rp.Succ? {
      RepLoop(code, s, f - 1, d, g, ps, t, l1, alt, rest, rp.pos, r);
      RunPartialCommit(code, s, l1 + |c|, l1, rp.pos, Alt(alt, i), rest, r);
    }
    ContFull(code, s, l1 + |c|, stk, rp, r);
    GenCorrect(code, s, f, d, g, ps, t.p, l1, false, NoTest, FullSet, i, stk, r);
  }

  /** The loop guarded by a test only: `L1: test -> L2; <p>; jmp L1; L2:`. */
  lemma {:induction false} HeadRepCorrect(code: Code, s: seq<byte>, f: nat, d: nat, g: seq<Tree>, ps: seq<nat>, t: Tree,
                                          a: int, opt: bool, tt: Test, fl: set<byte>, i: nat, stk: Stack, r: Res)
    requires t.TRep? && !ToCharset(t.p).YesSet? && ByHeadRep(d, g, t.p, fl)
    requires Placed(code, d, g, ps, t, a, opt, tt, fl) && i <= |s|
    requires Cont(code, s, a + |Gen(d, g, t, opt, tt, fl)|, stk, opt, fl, Eval(f, g, t, s, i), r)
    ensures Halts(code, s, State(a, i, stk), r)
    decreases f, t, 0
  {
    hide Gen, GenRep, GetFirst, HeadFail, FixedLen, CheckAux, Step, Halts, Holds, CharsetType, GenTest, TestLen, TestOf;
    GenUnfolds(d, g, t, opt, tt, fl);
    HeadRepLayout(code, d, g, ps, t, a, opt, fl);
    var p := t.p;
    var fs := GetFirst(g, p, FullSet, d);
    var n, b := TestLen(fs.cs), a + |GenRep(d, g, t, opt, fl)|;
    var rp := Eval(f, g, p, s, i);
    if HeadFail(g, p, d) { HeadFailNotEmpty(g, p, FullSet, d); }
    FirstRejects(f, g, p, d, s, i);
    if i < |s| && s[i] in fs.cs {
      TestOfHolds(fs.cs, s, i);
      if rp.Succ? {
        HeadRepCorrect(code, s, f - 1, d, g, ps, t, a, opt, tt, fl, rp.pos, stk, r);
        RunJmp(code, s, b - 2, a, rp.pos, stk, r);
      } else {
        // only without headfail: what follows the loop cannot take s[i] either
        if HeadFail(g, p, d) { HeadFailSound(f, g, p, d, s, i); }
        InFull({s[i]});
      }
      ContFull(code, s, b - 2, stk, rp, r);
      GenCorrect(code, s, f, d, g, ps, p, a + n, false, TestOf(fs.cs), FullSet, i, stk, r);
    } else {
      Continues(code, s, b, stk, opt, fl, i, r);
    }
    TestRuns(code, s, a, fs.cs, b - a, ps, i, stk, r);
  }

  /** Following jumps does not change what the machine does. */
  lemma {:induction false} FollowHalts(code: Code, s: seq<byte>, p: int, n: nat, i: nat, stk: Stack, r: Res)
    requires Halts(code, s, State(p, i, stk), r)
    ensures Halts(code, s, State(Follow(code, p, n), i, stk), r)
    decreases n
  {
    if n > 0 && IsOp(code, p, IJmp) && HasOff(code, p) {
      StepOn(code, s, State(p, i, stk), r);
      FollowHalts(code, s, Target(code, p), n - 1, i, stk, r);
    }
  }

  lemma {:induction false} CallCorrect(code: Code, s: seq<byte>, f: nat, d: nat, g: seq<Tree>, ps: seq<nat>, t: Tree,
                                       a: int, opt: bool, tt: Test, fl: set<byte>, i: nat, stk: Stack, r: Res)
    requires t.TCall?
    requires Placed(code, d, g, ps, t, a, opt, tt, fl) && i <= |s| && TestHolds(tt, s, i)
    requires Cont(code, s, a + |Gen(d, g, t, opt, tt, fl)|, stk, opt, fl, Eval(f, g, t, s, i), r)
    ensures Halts(code, s, State(a, i, stk), r)
    decreases f, t, 0
  {
    hide Gen, GetFirst, HeadFail, FixedLen, CheckAux, Step, Halts, Holds, Follow;
    var k := t.rule;
    GenUnfolds(d, g, t, opt, tt, fl);
    CallHolds(code, a, k, ps);
    var c := Gen(d, g, g[k], false, NoTest, FullSet);
    Split(code, ps[k], c, [I(IRet)], ps);
    var e := ps[k] + |c|;
    HoldsSimple(code, e, I(IRet), ps);
    var rk := Eval(f - 1, g, g[k], s, i);
    if rk.Succ? { Continues(code, s, a + 2, stk, opt, fl, rk.pos, r); }
    if IsOp(code, a, ICall) {
      var inner := Push(Ret(a + 2), stk);
      if rk.Succ? { RunRet(code, s, e, a + 2, rk.pos, stk, r); }
      ContFull(code, s, e, inner, rk, r);
      GenCorrect(code, s, f - 1, d, g, ps, g[k], ps[k], false, NoTest, FullSet, i, inner, r);
      RunCall(code, s, a, ps[k], i, stk, r);
    } else {
      if rk.Succ? { TailReturns(code, s, a + 2, e, rk.pos, stk, r); }
      ContFull(code, s, e, stk, rk, r);
      GenCorrect(code, s, f - 1, d, g, ps, g[k], ps[k], false, NoTest, FullSet, i, stk, r);
      RunJmp(code, s, a, ps[k], i, stk, r);
    }
  }

  lemma CallHolds(code: Code, a: int, k: nat, ps: seq<nat>)
    requires Holds(code, a, [Op(IOpenCall, 0, k), Hole], ps)
    ensures k < |ps| && Resolved(code, a, ps[k])
  {
    assert SlotOK(code, a + 0, [Op(IOpenCall, 0, k), Hole][0], ps);
  }

  /** Returning from anywhere is the same: a rule reached by a tail call returns for its caller. */
  lemma TailReturns(code: Code, s: seq<byte>, p: int, e: int, i: nat, stk: Stack, r: Res)
    requires i <= |s| && RetAt(code, p) && IsOp(code, e, IRet) && Halts(code, s, State(p, i, stk), r)
    ensures Halts(code, s, State(e, i, stk), r)
  {
    var n: nat :| IsOp(code, Follow(code, p, n), IRet);
    FollowHalts(code, s, p, n, i, stk, r);
    StepOn(code, s, State(Follow(code, p, n), i, stk), r);
    StepBack(code, s, State(e, i, stk), r);
  }

  lemma {:induction false} GrammarCorrect(code: Code, s: seq<byte>, f: nat, d: nat, g: seq<Tree>, ps: seq<nat>, t: Tree,
                                          a: int, opt: bool, tt: Test, fl: set<byte>, i: nat, stk: Stack, r: Res)
    requires t.TGrammar?
    requires Placed(code, d, g, ps, t, a, opt, tt, fl) && i <= |s| && TestHolds(tt, s, i)
    requires Cont(code, s, a + |Gen(d, g, t, opt, tt, fl)|, stk, opt, fl, Eval(f, g, t, s, i), r)
    ensures Halts(code, s, State(a, i, stk), r)
    decreases f, t, 0
  {
    hide Gen, GetFirst, HeadFail, FixedLen, CheckAux, Step, Halts, Holds, Link, RawGrammar, Positions;
    var rs := t.rules;
    GenUnfolds(d, g, t, opt, tt, fl);
    var b := a + |GrammarCode(d, rs)|;
    assert 0 <= a by { HoldsInside(code, a, GrammarCode(d, rs), ps); }
    var inside := Shifted(Positions(d, rs, rs, 4), a);
    GrammarStands(code, d, rs, a, ps);
    var inner := Push(Ret(a + 2), stk);
    var c := Gen(d, rs, rs[0], false, NoTest, FullSet);
    Split(code, inside[0], c, [I(IRet)], inside);
    var e := inside[0] + |c|;
    HoldsSimple(code, e, I(IRet), inside);
    var r0 := Eval(f, rs, rs[0], s, i);
    if r0.Succ? {
      Continues(code, s, b, stk, opt, fl, r0.pos, r);
      RunJmp(code, s, a + 2, b, r0.pos, stk, r);
      RunRet(code, s, e, a + 2, r0.pos, stk, r);
    }
    ContFull(code, s, e, inner, r0, r);
    GenCorrect(code, s, f, d, rs, inside, rs[0], inside[0], false, NoTest, FullSet, i, inner, r);
    RunCall(code, s, a, inside[0], i, stk, r);
  }
}
