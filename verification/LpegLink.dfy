/**
 * Closing the calls of a grammar: where the rules stand and what a closed call does.
 */
module LpegLink {
  import opened LpegTree
  import opened LpegAnalysis
  import opened LpegVm
  import opened LpegCodegen

  /** A closed call at `x` to the rule at `target`. */
  ghost predicate Resolved(code: Code, x: int, target: int) {
    IsLabel(code, x, ICall, target) || (IsLabel(code, x, IJmp, target) && RetAt(code, x + 2))
  }

  ghost predicate SlotOK(code: Code, x: int, slot: Slot, ps: seq<nat>) {
    slot == Hole ||
    (0 <= x < |code| &&
     if IsOpen(slot) then slot.key < |ps| && Resolved(code, x, ps[slot.key]) else code[x] == slot)
  }

  /** `code` holds `seg` at address `a`, with its open calls closed to the rule addresses `ps`. */
  ghost predicate Holds(code: Code, a: int, seg: Code, ps: seq<nat>) {
    0 <= a && a + |seg| <= |code| && forall k :: 0 <= k < |seg| ==> SlotOK(code, a + k, seg[k], ps)
  }

  ghost function RuleCode(d: nat, g: seq<Tree>, k: nat): Code
    requires k < |g|
  {
    Gen(d, g, g[k], false, NoTest, FullSet) + [I(IRet)]
  }

  ghost predicate RulesAt(code: Code, d: nat, g: seq<Tree>, ps: seq<nat>) {
    |ps| == |g| && forall k :: 0 <= k < |g| ==> WellFormed(d, g, g[k]) && Holds(code, ps[k], RuleCode(d, g, k), ps)
  }

  /** Every grammar of the tree has a rule, every call names a rule, and a look-behind knows the
      length of its pattern. */
  predicate WellFormed(d: nat, g: seq<Tree>, t: Tree)
    decreases t
  {
    match t
    case TRep(p) => WellFormed(d, g, p)
    case TSeq(p1, p2) => WellFormed(d, g, p1) && WellFormed(d, g, p2)
    case TChoice(p1, p2) => WellFormed(d, g, p1) && WellFormed(d, g, p2)
    case TNot(p) => WellFormed(d, g, p)
    case TAnd(p) => WellFormed(d, g, p)
    case TCall(k) => k < |g|
    case TGrammar(rs) => rs != [] && forall k :: 0 <= k < |rs| ==> WellFormed(d, rs, rs[k])
    case TBehind(n, p) => WellFormed(d, g, p) && FixedLen(g, p, d) == n
    case _ => true
  }

  lemma Split(code: Code, a: int, x: Code, y: Code, ps: seq<nat>)
    requires Holds(code, a, x + y, ps)
    ensures Holds(code, a, x, ps) && Holds(code, a + |x|, y, ps)
  {
    forall k | 0 <= k < |x| ensures SlotOK(code, a + k, x[k], ps) {
      assert (x + y)[k] == x[k];
    }
    forall k | 0 <= k < |y| ensures SlotOK(code, a + |x| + k, y[k], ps) {
      assert (x + y)[|x| + k] == y[k];
      assert SlotOK(code, a + (|x| + k), (x + y)[|x| + k], ps);
    }
  }

  /** The instruction at `x` is complete, the next one follows it, and an open call names one of
      the rules `ks` and is followed by the hole for its label. */
  predicate InstrOK(c: Code, x: nat, ks: set<nat>)
    requires x < |c| && c[x].Op?
  {
    var e := x + SizeI(c[x].op);
    e <= |c| && (e < |c| ==> c[e].Op?)
    && (forall k :: x < k < e ==> !c[k].Op?)
    && (IsOpen(c[x]) ==> c[x].key in ks && c[x + 1] == Hole)
  }

  predicate Below(ks: set<nat>, n: nat) { forall k :: k in ks ==> k < n }

  function UsedRules(g: seq<Tree>): set<nat> { set k: nat | k < |g| && Used(g, k) }

  /** A proper sequence of instructions. */
  predicate Shape(c: Code, ks: set<nat>) {
    (c != [] ==> c[0].Op?)
    && (forall x :: 0 <= x < |c| && c[x].Op? ==> InstrOK(c, x, ks))
    && (forall x :: 0 <= x < |c| && c[x] == Hole ==> x > 0 && IsOpen(c[x - 1]))
  }

  predicate Closed(c: Code) { forall x :: 0 <= x < |c| ==> !IsOpen(c[x]) && c[x] != Hole }

  lemma InstrLeft(a: Code, b: Code, x: nat, ks: set<nat>)
    requires x < |a| && a[x].Op? && InstrOK(a, x, ks) && (b != [] ==> b[0].Op?)
    ensures InstrOK(a + b, x, ks)
  {
    var c := a + b;
    var e := x + SizeI(a[x].op);
    assert forall k :: x < k < e ==> c[k] == a[k];
    if e == |a| && b != [] { assert c[e] == b[0]; }
  }

  lemma InstrRight(a: Code, b: Code, x: nat, ks: set<nat>)
    requires x < |b| && b[x].Op? && InstrOK(b, x, ks)
    ensures InstrOK(a + b, |a| + x, ks)
  {
    var c := a + b;
    var e := x + SizeI(b[x].op);
    assert c[|a| + x] == b[x];
    forall k | |a| + x < k < |a| + e ensures !c[k].Op? { assert c[k] == b[k - |a|]; }
    if e < |b| { assert c[|a| + e] == b[e]; }
    if IsOpen(b[x]) { assert c[|a| + x + 1] == b[x + 1]; }
  }

  lemma Shape2(a: Code, b: Code, ks: set<nat>)
    requires Shape(a, ks) && Shape(b, ks)
    ensures Shape(a + b, ks)
  {
    hide InstrOK, SizeI;
    var c := a + b;
    forall x | 0 <= x < |c| && c[x].Op? ensures InstrOK(c, x, ks) {
      if x < |a| { InstrLeft(a, b, x, ks); } else { InstrRight(a, b, x - |a|, ks); }
    }
    forall x | 0 <= x < |c| && c[x] == Hole ensures x > 0 && IsOpen(c[x - 1]) {
      if x >= |a| { assert b[x - |a|] == Hole; }
    }
  }

  lemma Shape3(a: Code, b: Code, c: Code, ks: set<nat>)
    requires Shape(a, ks) && Shape(b, ks) && Shape(c, ks)
    ensures Shape(a + b + c, ks)
  {
    Shape2(a, b, ks);
    Shape2(a + b, c, ks);
  }

  lemma Shape4(a: Code, b: Code, c: Code, e: Code, ks: set<nat>)
    requires Shape(a, ks) && Shape(b, ks) && Shape(c, ks) && Shape(e, ks)
    ensures Shape(a + b + c + e, ks)
  {
    Shape3(a, b, c, ks);
    Shape2(a + b + c, e, ks);
  }

  lemma OneInstruction(c: Code, ks: set<nat>)
    requires c != [] && c[0].Op? && SizeI(c[0].op) == |c|
    requires forall k :: 1 <= k < |c| ==> !c[k].Op? && c[k] != Hole
    requires !IsOpen(c[0])
    ensures Shape(c, ks)
  {}

  lemma TestShape(cs: set<byte>, off: int, ks: set<nat>)
    ensures Shape(GenTest(cs, off), ks)
  {
    OneInstruction(GenTest(cs, off), ks);
  }

  lemma TestIfShape(f: First, off: int, ks: set<nat>)
    ensures Shape(GenTestIf(f, off), ks)
  {
    TestShape(f.cs, off, ks);
  }

  lemma JumpShape(op: Opcode, off: int, ks: set<nat>)
    requires SizeI(op) == 2 && op != IOpenCall
    ensures Shape(Jump(op, off), ks)
  {
    OneInstruction(Jump(op, off), ks);
  }

  lemma SimpleShape(x: Slot, ks: set<nat>)
    requires x.Op? && SizeI(x.op) == 1
    ensures Shape([x], ks)
  {
    OneInstruction([x], ks);
  }

  lemma SetShape(cs: set<byte>, tt: Test, ks: set<nat>)
    ensures Shape(GenSet(cs, tt), ks) && Shape([I(ISpan)] + SetBuf(cs), ks)
  {
    OneInstruction(GenSet(cs, tt), ks);
    OneInstruction([I(ISpan)] + SetBuf(cs), ks);
  }

  ghost function GrammarCode(d: nat, rs: seq<Tree>): Code {
    Link(RawGrammar(d, rs), Positions(d, rs, rs, 4))
  }


  lemma GenUnfolds(d: nat, g: seq<Tree>, t: Tree, opt: bool, tt: Test, fl: set<byte>)
    ensures t.TChoice? ==> Gen(d, g, t, opt, tt, fl) == GenChoice(d, g, t, opt, fl)
    ensures t.TRep? ==> Gen(d, g, t, opt, tt, fl) == GenRep(d, g, t, opt, fl)
    ensures t.TNot? ==> Gen(d, g, t, opt, tt, fl) == GenNot(d, g, t)
    ensures t.TAnd? ==> Gen(d, g, t, opt, tt, fl) == GenAnd(d, g, t, tt)
    ensures t.TGrammar? ==> Gen(d, g, t, opt, tt, fl) == GrammarCode(d, t.rules)
    ensures t.TCall? ==> Gen(d, g, t, opt, tt, fl) == [Op(IOpenCall, 0, t.rule), Hole]
    ensures t.TBehind? ==>
      Gen(d, g, t, opt, tt, fl)
      == (if t.n > 0 then [Op(IBehind, t.n, 0)] else []) + Gen(d, g, t.p, false, NoTest, FullSet)
    ensures t.TSeq? ==>
      Gen(d, g, t, opt, tt, fl)
      == Gen(d, g, t.p1, false, tt, if NeedFollow(t.p1) then GetFirst(g, t.p2, fl, d).cs else FullSet)
         + Gen(d, g, t.p2, opt, if FixedLen(g, t.p1, d) != 0 then NoTest else tt, fl)
  {}

  lemma EmptyShape(ks: set<nat>)
    ensures Shape([], ks)
  {}

  lemma LeafShape(d: nat, g: seq<Tree>, t: Tree, opt: bool, tt: Test, fl: set<byte>, ks: set<nat>)
    requires t.TChar? || t.TSet? || t.TAny? || t.TTrue? || t.TFalse?
    ensures Shape(Gen(d, g, t, opt, tt, fl), ks)
  {
    var c := Gen(d, g, t, opt, tt, fl);
    if t.TSet? { SetShape(t.cs, tt, ks); } else if t.TTrue? { EmptyShape(ks); } else { SimpleShape(c[0], ks); }
  }

  lemma OpenShape(k: nat, ks: set<nat>)
    requires k in ks
    ensures Shape([Op(IOpenCall, 0, k), Hole], ks)
  {
    assert InstrOK([Op(IOpenCall, 0, k), Hole], 0, ks);
  }

  /** The emitted code is a proper sequence of instructions whose open calls name rules of `g`. */
  lemma {:induction false} GenShape(d: nat, g: seq<Tree>, t: Tree, opt: bool, tt: Test, fl: set<byte>, ks: set<nat>)
    requires WellFormed(d, g, t) && forall k :: Calls(t, k) ==> k in ks
    ensures Shape(Gen(d, g, t, opt, tt, fl), ks)
    decreases t, 1
  {
    hide Gen, GenChoice, GenRep, GenNot, GenAnd, GrammarCode, Shape, GetFirst, FixedLen;
    GenUnfolds(d, g, t, opt, tt, fl);
    match t
    case TChoice(p1, p2) => ChoiceShape(d, g, t, opt, fl, ks);
    case TRep(p) => RepShape(d, g, t, opt, fl, ks);
    case TBehind(k, p) =>
      GenShape(d, g, p, false, NoTest, FullSet, ks);
      SimpleShape(Op(IBehind, k, 0), ks);
      EmptyShape(ks);
      Shape2(if k > 0 then [Op(IBehind, k, 0)] else [], Gen(d, g, p, false, NoTest, FullSet), ks);
    case TNot(p) => NotShape(d, g, t, ks);
    case TAnd(p) => AndShape(d, g, t, tt, ks);
    case TSeq(p1, p2) =>
      var fl1 := if NeedFollow(p1) then GetFirst(g, p2, fl, d).cs else FullSet;
      var tt2 := if FixedLen(g, p1, d) != 0 then NoTest else tt;
      GenShape(d, g, p1, false, tt, fl1, ks);
      GenShape(d, g, p2, opt, tt2, fl, ks);
      Shape2(Gen(d, g, p1, false, tt, fl1), Gen(d, g, p2, opt, tt2, fl), ks);
    case TCall(k) => OpenShape(k, ks);
    case TGrammar(rs) =>
      GrammarShape(d, rs);
      ClosedShape(GrammarCode(d, rs), UsedRules(rs), ks);
    case _ => LeafShape(d, g, t, opt, tt, fl, ks);
  }

  lemma ClosedShape(c: Code, ks: set<nat>, ks': set<nat>)
    requires Shape(c, ks) && Closed(c)
    ensures Shape(c, ks')
  {
    forall x | 0 <= x < |c| && c[x].Op? ensures InstrOK(c, x, ks') { assert InstrOK(c, x, ks); }
  }

  lemma {:induction false} ChoiceShape(d: nat, g: seq<Tree>, t: Tree, opt: bool, fl: set<byte>, ks: set<nat>)
    requires t.TChoice? && WellFormed(d, g, t) && forall k :: Calls(t, k) ==> k in ks
    ensures Shape(GenChoice(d, g, t, opt, fl), ks)
    decreases t, 0
  {
    hide Gen, GetFirst, HeadFail, FixedLen, CheckAux, Shape, CharsetType, GenTest, TestLen, TestOf, ByHead, ByHeadRep;
    var p1, p2 := t.p1, t.p2;
    var f1 := GetFirst(g, p1, FullSet, d);
    var c2 := Gen(d, g, p2, opt, NoTest, fl);
    GenShape(d, g, p2, opt, NoTest, fl, ks);
    if ByHead(d, g, p1, p2, fl) {
      var c1 := Gen(d, g, p1, false, TestOf(f1.cs), fl);
      var jmp := if p2.TTrue? then [] else Jump(IJmp, 2 + |c2|);
      GenShape(d, g, p1, false, TestOf(f1.cs), fl, ks);
      TestShape(f1.cs, TestLen(f1.cs) + |c1| + |jmp|, ks);
      JumpShape(IJmp, 2 + |c2|, ks);
      Shape4(GenTest(f1.cs, TestLen(f1.cs) + |c1| + |jmp|), c1, jmp, c2, ks);
    } else if opt && p2.TTrue? {
      GenShape(d, g, p1, true, NoTest, FullSet, ks);
      JumpShape(IPartialCommit, 2, ks);
      Shape2(Jump(IPartialCommit, 2), Gen(d, g, p1, true, NoTest, FullSet), ks);
    } else {
      var c1 := Gen(d, g, p1, p2.TTrue?, TestOfIf(f1), FullSet);
      var head := GenTestIf(f1, TestIfLen(f1) + 4 + |c1|);
      GenShape(d, g, p1, p2.TTrue?, TestOfIf(f1), FullSet, ks);
      TestIfShape(f1, TestIfLen(f1) + 4 + |c1|, ks);
      JumpShape(IChoice, 4 + |c1|, ks);
      JumpShape(ICommit, 2 + |c2|, ks);
      Shape4(head, Jump(IChoice, 4 + |c1|), c1, Jump(ICommit, 2 + |c2|), ks);
      Shape2(head + Jump(IChoice, 4 + |c1|) + c1 + Jump(ICommit, 2 + |c2|), c2, ks);
    }
  }

  lemma {:induction false} RepShape(d: nat, g: seq<Tree>, t: Tree, opt: bool, fl: set<byte>, ks: set<nat>)
    requires t.TRep? && WellFormed(d, g, t) && forall k :: Calls(t, k) ==> k in ks
    ensures Shape(GenRep(d, g, t, opt, fl), ks)
    decreases t, 0
  {
    hide Gen, GetFirst, HeadFail, FixedLen, CheckAux, Shape, CharsetType, GenTest, TestLen, TestOf, ByHead, ByHeadRep;
    var p := t.p;
    var f := GetFirst(g, p, FullSet, d);
    if ToCharset(p).YesSet? {
      SetShape(ToCharset(p).cs, NoTest, ks);
    } else if ByHeadRep(d, g, p, fl) {
      var c := Gen(d, g, p, false, TestOf(f.cs), FullSet);
      var m := TestLen(f.cs) + |c|;
      GenShape(d, g, p, false, TestOf(f.cs), FullSet, ks);
      TestShape(f.cs, m + 2, ks);
      JumpShape(IJmp, -m, ks);
      Shape3(GenTest(f.cs, m + 2), c, Jump(IJmp, -m), ks);
    } else {
      var c := Gen(d, g, p, false, NoTest, FullSet);
      var head := GenTestIf(f, TestIfLen(f) + 4 + |c|);
      var enter := if opt then Jump(IPartialCommit, 2) else Jump(IChoice, 4 + |c|);
      GenShape(d, g, p, false, NoTest, FullSet, ks);
      TestIfShape(f, TestIfLen(f) + 4 + |c|, ks);
      JumpShape(IChoice, 4 + |c|, ks);
      JumpShape(IPartialCommit, 2, ks);
      JumpShape(IPartialCommit, -|c|, ks);
      Shape4(head, enter, c, Jump(IPartialCommit, -|c|), ks);
    }
  }

  lemma {:induction false} NotShape(d: nat, g: seq<Tree>, t: Tree, ks: set<nat>)
    requires t.TNot? && WellFormed(d, g, t) && forall k :: Calls(t, k) ==> k in ks
    ensures Shape(GenNot(d, g, t), ks)
    decreases t, 0
  {
    hide Gen, GetFirst, HeadFail, FixedLen, CheckAux, Shape, CharsetType, GenTest, TestLen, TestOf, ByHead, ByHeadRep;
    var p := t.p;
    var f := GetFirst(g, p, FullSet, d);
    if HeadFail(g, p, d) {
      TestIfShape(f, TestIfLen(f) + 1, ks);
      SimpleShape(I(IFail), ks);
      Shape2(GenTestIf(f, TestIfLen(f) + 1), [I(IFail)], ks);
    } else {
      var c := Gen(d, g, p, false, NoTest, FullSet);
      var head := GenTestIf(f, TestIfLen(f) + 3 + |c|);
      GenShape(d, g, p, false, NoTest, FullSet, ks);
      TestIfShape(f, TestIfLen(f) + 3 + |c|, ks);
      JumpShape(IChoice, 3 + |c|, ks);
      SimpleShape(I(IFailTwice), ks);
      Shape4(head, Jump(IChoice, 3 + |c|), c, [I(IFailTwice)], ks);
    }
  }

  lemma {:induction false} AndShape(d: nat, g: seq<Tree>, t: Tree, tt: Test, ks: set<nat>)
    requires t.TAnd? && WellFormed(d, g, t) && forall k :: Calls(t, k) ==> k in ks
    ensures Shape(GenAnd(d, g, t, tt), ks)
    decreases t, 0
  {
    hide Gen, GetFirst, HeadFail, FixedLen, CheckAux, Shape, CharsetType, GenTest, TestLen, TestOf, ByHead, ByHeadRep;
    var k := FixedLen(g, t.p, d);
    var c := Gen(d, g, t.p, false, tt, FullSet);
    GenShape(d, g, t.p, false, tt, FullSet, ks);
    if 0 <= k <= MAXBEHIND {
      SimpleShape(Op(IBehind, k, 0), ks);
      EmptyShape(ks);
      Shape2(c, if k > 0 then [Op(IBehind, k, 0)] else [], ks);
    } else {
      JumpShape(IChoice, 4 + |c|, ks);
      JumpShape(IBackCommit, 3, ks);
      SimpleShape(I(IFail), ks);
      Shape4(Jump(IChoice, 4 + |c|), c, Jump(IBackCommit, 3), [I(IFail)], ks);
    }
  }

  lemma {:induction false} RulesShape(d: nat, g: seq<Tree>, rs: seq<Tree>, ks: set<nat>)
    requires forall k :: 0 <= k < |rs| ==> WellFormed(d, g, rs[k])
    requires forall k, m :: 0 <= m < |rs| && Calls(rs[m], k) ==> k in ks
    ensures Shape(GenRules(d, g, rs), ks)
    decreases rs, 2
  {
    hide Gen, GetFirst, HeadFail, FixedLen, CheckAux, Shape, CharsetType, GenTest, TestLen, TestOf, ByHead, ByHeadRep;
    EmptyShape(ks);
    if rs != [] {
      var c := Gen(d, g, rs[0], false, NoTest, FullSet);
      GenShape(d, g, rs[0], false, NoTest, FullSet, ks);
      RulesShape(d, g, rs[1..], ks);
      SimpleShape(I(IRet), ks);
      Shape3(c, [I(IRet)], GenRules(d, g, rs[1..]), ks);
    }
  }

  ghost predicate SameClosed(code: Code, code': Code) {
    |code| == |code'| &&
    forall x :: 0 <= x < |code| && !IsOpen(code[x]) && code[x] != Hole ==> code'[x] == code[x]
  }

  /** A chain of jumps to `IRet` survives the closing of calls. */
  lemma {:induction false} RetAtSame(code: Code, code': Code, p: int, n: nat)
    requires SameClosed(code, code') && IsOp(code, Follow(code, p, n), IRet)
    ensures Follow(code', p, n) == Follow(code, p, n) && IsOp(code', Follow(code', p, n), IRet)
    decreases n
  {
    if n > 0 && IsOp(code, p, IJmp) && HasOff(code, p) { RetAtSame(code, code', Target(code, p), n - 1); }
  }

  ghost function CloseOne(code: Code, i: nat, target: nat): (r: Code)
    requires i + 1 < |code| && code[i].Op?
    ensures |r| == |code|
  {
    code[i := code[i].(op := if RetAt(code, i + 2) then IJmp else ICall)][i + 1 := Off(target - i)]
  }

  lemma CloseOneInstr(code: Code, r: Code, i: nat, ks: set<nat>, x: nat)
    requires |r| == |code| && i + 1 < |code| && IsOpen(code[i]) && code[i + 1] == Hole
    requires r[i].Op? && SizeI(r[i].op) == 2 && !IsOpen(r[i]) && r[i + 1].Off?
    requires forall k :: 0 <= k < |code| && k != i && k != i + 1 ==> r[k] == code[k]
    requires x < |r| && code[x].Op? && InstrOK(code, x, ks)
    ensures InstrOK(r, x, ks)
  {
    var e := x + SizeI(code[x].op);
    assert SizeI(r[x].op) == SizeI(code[x].op);
    if e < |code| { assert code[e].Op?; }
    forall k | x < k < e ensures !r[k].Op? { assert !code[k].Op?; }
    if x != i && IsOpen(code[x]) { assert code[x + 1] == Hole; }
  }

  lemma CloseOneShape(code: Code, i: nat, target: nat, ks: set<nat>)
    requires Shape(code, ks) && i + 1 < |code| && IsOpen(code[i]) && code[i + 1] == Hole
    ensures Shape(CloseOne(code, i, target), ks)
  {
    hide RetAt, InstrOK;
    var r := CloseOne(code, i, target);
    forall x | 0 <= x < |r| && r[x].Op? ensures InstrOK(r, x, ks) { CloseOneInstr(code, r, i, ks, x); }
    forall x | 0 <= x < |r| && r[x] == Hole ensures x > 0 && IsOpen(r[x - 1]) {
      assert code[x] == Hole && x != i + 1;
      assert IsOpen(code[x - 1]);
    }
  }

  lemma LinkStep(code: Code, i: nat, ps: seq<nat>, ks: set<nat>)
    requires i < |code| && Shape(code, ks) && Below(ks, |ps|) && code[i].Op?
    ensures i + SizeI(code[i].op) <= |code|
    ensures i + SizeI(code[i].op) < |code| ==> code[i + SizeI(code[i].op)].Op?
    ensures forall x :: i < x < i + SizeI(code[i].op) ==> !IsOpen(code[x])
    ensures IsOpen(code[i]) ==>
              i + 1 < |code| && code[i + 1] == Hole && code[i].key < |ps|
              && LinkFrom(code, i, ps) == LinkFrom(CloseOne(code, i, ps[code[i].key]), i + 2, ps)
    ensures !IsOpen(code[i]) ==> LinkFrom(code, i, ps) == LinkFrom(code, i + SizeI(code[i].op), ps)
  {
    assert InstrOK(code, i, ks);
  }

  /** Closing the calls from `i` on resolves each of them and touches nothing else. */
  lemma {:induction false} LinkFromResolves(code: Code, i: nat, ps: seq<nat>, ks: set<nat>)
    requires i <= |code| && Shape(code, ks) && Below(ks, |ps|) && (i < |code| ==> code[i].Op?)
    requires forall x :: 0 <= x < i && x < |code| ==> !IsOpen(code[x])
    ensures var r := LinkFrom(code, i, ps);
            SameClosed(code, r) && Shape(r, ks) && Closed(r)
            && forall x :: 0 <= x < |code| && IsOpen(code[x]) ==> code[x].key < |ps| && Resolved(r, x, ps[code[x].key])
    decreases |code| - i
  {
    hide LinkFrom, Shape, RetAt, SizeI;
    var r := LinkFrom(code, i, ps);
    if i == |code| {
      LinkDone(code, i, ps, ks);
    } else {
      LinkStep(code, i, ps, ks);
      SizePositive(code[i].op);
      if IsOpen(code[i]) {
        var linked := CloseOne(code, i, ps[code[i].key]);
        CloseOneShape(code, i, ps[code[i].key], ks);
        LinkFromResolves(linked, i + 2, ps, ks);
        LinkOne(code, i, ps, r);
      } else {
        LinkFromResolves(code, i + SizeI(code[i].op), ps, ks);
      }
    }
  }

  lemma SizePositive(op: Opcode)
    ensures SizeI(op) >= 1 && (op == IOpenCall ==> SizeI(op) == 2)
  {}

  lemma LinkDone(code: Code, i: nat, ps: seq<nat>, ks: set<nat>)
    requires i == |code| && Shape(code, ks) && forall x :: 0 <= x < |code| ==> !IsOpen(code[x])
    ensures LinkFrom(code, i, ps) == code && Closed(code)
  {
    forall x | 0 <= x < |code| ensures code[x] != Hole {
      assert !(x > 0 && IsOpen(code[x - 1]));
    }
  }

  lemma LinkOne(code: Code, i: nat, ps: seq<nat>, r: Code)
    requires i + 1 < |code| && IsOpen(code[i]) && code[i + 1] == Hole && code[i].key < |ps|
    requires var linked := CloseOne(code, i, ps[code[i].key]);
             SameClosed(linked, r)
             && forall x :: 0 <= x < |code| && IsOpen(linked[x]) ==> linked[x].key < |ps| && Resolved(r, x, ps[linked[x].key])
    ensures SameClosed(code, r)
    ensures forall x :: 0 <= x < |code| && IsOpen(code[x]) ==> code[x].key < |ps| && Resolved(r, x, ps[code[x].key])
  {
    hide RetAt;
    var linked := CloseOne(code, i, ps[code[i].key]);
    forall x | 0 <= x < |code| && !IsOpen(code[x]) && code[x] != Hole ensures r[x] == code[x] {
      assert linked[x] == code[x];
    }
    assert r[i] == linked[i] && r[i + 1] == linked[i + 1];
    if RetAt(code, i + 2) { RetStays(code, r, i + 2); }
    forall x | 0 <= x < |code| && IsOpen(code[x]) ensures code[x].key < |ps| && Resolved(r, x, ps[code[x].key]) {
      if x != i { assert linked[x] == code[x]; }
    }
  }

  lemma RetStays(code: Code, code': Code, p: int)
    requires SameClosed(code, code') && RetAt(code, p)
    ensures RetAt(code', p)
  {
    var m: nat :| IsOp(code, Follow(code, p, m), IRet);
    RetAtSame(code, code', p, m);
  }

  lemma {:induction false} CallsBelow(d: nat, g: seq<Tree>, t: Tree, k: nat)
    requires WellFormed(d, g, t) && Calls(t, k)
    ensures k < |g|
    decreases t
  {
    match t
    case TRep(p) => CallsBelow(d, g, p, k);
    case TNot(p) => CallsBelow(d, g, p, k);
    case TAnd(p) => CallsBelow(d, g, p, k);
    case TBehind(_, p) => CallsBelow(d, g, p, k);
    case TSeq(p1, p2) => CallsBelow(d, g, if Calls(p1, k) then p1 else p2, k);
    case TChoice(p1, p2) => CallsBelow(d, g, if Calls(p1, k) then p1 else p2, k);
    case _ =>
  }

  lemma RawShape(d: nat, rs: seq<Tree>)
    requires forall k :: 0 <= k < |rs| ==> WellFormed(d, rs, rs[k])
    ensures var raw := RawGrammar(d, rs);
            4 <= |raw| && Shape(raw, UsedRules(rs)) && raw[4..] == GenRules(d, rs, rs)
            && (forall x :: 0 <= x < 4 ==> !IsOpen(raw[x])) && (4 < |raw| ==> raw[4].Op?)
    decreases rs, 3
  {
    hide Gen, GenRules, Shape, FixedLen, CheckAux;
    var ks := UsedRules(rs);
    forall k, m | 0 <= m < |rs| && Calls(rs[m], k) ensures k in ks { CallsBelow(d, rs, rs[m], k); }
    RulesShape(d, rs, rs, ks);
    var body := GenRules(d, rs, rs);
    JumpShape(ICall, 4, ks);
    JumpShape(IJmp, 2 + |body|, ks);
    Shape3(Jump(ICall, 4), Jump(IJmp, 2 + |body|), body, ks);
    var raw := RawGrammar(d, rs);
    assert raw[0] == I(ICall) && raw[1] == Off(4) && raw[2] == I(IJmp) && raw[3] == Off(2 + |body|);
    assert 4 < |raw| ==> raw[4] == body[0];
    ShapeStarts(body, ks);
  }

  lemma ShapeStarts(c: Code, ks: set<nat>)
    requires Shape(c, ks)
    ensures c != [] ==> c[0].Op?
  {}

  lemma OpenKey(c: Code, ks: set<nat>, x: nat)
    requires Shape(c, ks) && x < |c| && IsOpen(c[x])
    ensures c[x].key in ks && InstrOK(c, x, ks)
  {}

  lemma GrammarShape(d: nat, rs: seq<Tree>)
    requires forall k :: 0 <= k < |rs| ==> WellFormed(d, rs, rs[k])
    ensures Shape(GrammarCode(d, rs), UsedRules(rs)) && Closed(GrammarCode(d, rs))
    decreases rs, 4
  {
    RawShape(d, rs);
    LinkFromResolves(RawGrammar(d, rs), 4, Positions(d, rs, rs, 4), UsedRules(rs));
  }

  /** Rule `k` stands where `Positions` says. */
  lemma {:induction false} RuleStands(d: nat, g: seq<Tree>, rs: seq<Tree>, at: nat, k: nat)
    requires k < |rs|
    ensures var c := Gen(d, g, rs[k], false, NoTest, FullSet) + [I(IRet)];
            var o := Positions(d, g, rs, at)[k] - at;
            0 <= o && o + |c| <= |GenRules(d, g, rs)| && GenRules(d, g, rs)[o..o + |c|] == c
    decreases rs
  {
    hide Gen, FixedLen, CheckAux, GenRules, Positions;
    var c0 := Gen(d, g, rs[0], false, NoTest, FullSet) + [I(IRet)];
    var tail, rest := GenRules(d, g, rs[1..]), Positions(d, g, rs[1..], at + |c0|);
    FirstRule(d, g, rs, at);
    var all := GenRules(d, g, rs);
    if k == 0 {
      SliceHead(all, c0, tail);
    } else {
      RuleStands(d, g, rs[1..], at + |c0|, k - 1);
      assert rs[1..][k - 1] == rs[k];
      var c := Gen(d, g, rs[k], false, NoTest, FullSet) + [I(IRet)];
      SliceTail(all, c0, tail, rest[k - 1] - (at + |c0|), |c|);
    }
  }

  lemma FirstRule(d: nat, g: seq<Tree>, rs: seq<Tree>, at: nat)
    requires rs != []
    ensures var c0 := Gen(d, g, rs[0], false, NoTest, FullSet) + [I(IRet)];
            GenRules(d, g, rs) == c0 + GenRules(d, g, rs[1..])
            && Positions(d, g, rs, at) == [at] + Positions(d, g, rs[1..], at + |c0|)
  {
    hide Gen;
  }

  lemma SliceHead<T>(all: seq<T>, head: seq<T>, tail: seq<T>)
    requires all == head + tail
    ensures all[0..|head|] == head
  {}

  lemma SliceTail<T>(all: seq<T>, head: seq<T>, tail: seq<T>, o: nat, n: nat)
    requires all == head + tail && o + n <= |tail|
    ensures all[|head| + o..|head| + o + n] == tail[o..o + n]
  {}

  lemma {:induction false} FollowShift(code: Code, a: nat, seg: Code, p: int, n: nat)
    requires a + |seg| <= |code| && forall x :: 0 <= x < |seg| ==> code[a + x] == seg[x]
    requires IsOp(seg, Follow(seg, p, n), IRet)
    ensures IsOp(code, Follow(code, a + p, n), IRet)
    decreases n
  {
    if n > 0 && IsOp(seg, p, IJmp) && HasOff(seg, p) {
      assert code[a + p] == seg[p] && code[a + (p + 1)] == seg[p + 1];
      FollowShift(code, a, seg, Target(seg, p), n - 1);
    } else {
      assert code[a + p] == seg[p];
    }
  }

  lemma ResolvedShift(code: Code, a: nat, seg: Code, x: int, target: int)
    requires a + |seg| <= |code| && forall x :: 0 <= x < |seg| ==> code[a + x] == seg[x]
    requires Resolved(seg, x, target)
    ensures Resolved(code, a + x, a + target)
  {
    assert code[a + x] == seg[x] && code[a + (x + 1)] == seg[x + 1];
    if !IsLabel(seg, x, ICall, target) {
      var n: nat :| IsOp(seg, Follow(seg, x + 2, n), IRet);
      FollowShift(code, a, seg, x + 2, n);
    }
  }

  ghost function Shifted(ps: seq<nat>, a: nat): (r: seq<nat>)
    ensures |r| == |ps| && forall k :: 0 <= k < |ps| ==> r[k] == a + ps[k]
  {
    seq(|ps|, k requires 0 <= k < |ps| => a + ps[k])
  }

  /** A linked grammar at address `a`: it is entered by a call and left by a jump to its end, and
      its rules stand in it with all their calls closed. */
  lemma GrammarStands(code: Code, d: nat, rs: seq<Tree>, a: nat, outer: seq<nat>)
    requires rs != [] && forall k :: 0 <= k < |rs| ==> WellFormed(d, rs, rs[k])
    requires Holds(code, a, GrammarCode(d, rs), outer)
    ensures var ps := Shifted(Positions(d, rs, rs, 4), a);
            RulesAt(code, d, rs, ps) && IsLabel(code, a, ICall, ps[0])
            && IsLabel(code, a + 2, IJmp, a + |GrammarCode(d, rs)|)
  {
    hide Gen, Shape, InstrOK, LinkFrom, GenRules, RetAt, CheckAux, FixedLen, SizeI, Resolved, RuleCode;
    var pos := Positions(d, rs, rs, 4);
    var raw := RawGrammar(d, rs);
    var seg := GrammarCode(d, rs);
    RawShape(d, rs);
    LinkFromResolves(raw, 4, pos, UsedRules(rs));
    forall x | 0 <= x < |seg| ensures code[a + x] == seg[x] {
      assert SlotOK(code, a + x, seg[x], outer);
    }
    assert code[a + 0] == raw[0] && code[a + 1] == raw[1] && code[a + 2] == raw[2] && code[a + 3] == raw[3];
    assert pos[0] == 4;
    var ps := Shifted(pos, a);
    forall k | 0 <= k < |rs| ensures Holds(code, ps[k], RuleCode(d, rs, k), ps) {
      RuleHolds(code, d, rs, a, k);
    }
  }

  lemma RuleHolds(code: Code, d: nat, rs: seq<Tree>, a: nat, k: nat)
    requires forall k :: 0 <= k < |rs| ==> WellFormed(d, rs, rs[k])
    requires var seg := GrammarCode(d, rs);
             a + |seg| <= |code| && forall x :: 0 <= x < |seg| ==> code[a + x] == seg[x]
    requires k < |rs|
    ensures var ps := Shifted(Positions(d, rs, rs, 4), a);
            Holds(code, ps[k], RuleCode(d, rs, k), ps)
  {
    hide Gen, Shape, LinkFrom, GenRules, RetAt, CheckAux, FixedLen, Positions, RawGrammar, SizeI, Resolved;
    var pos := Positions(d, rs, rs, 4);
    var raw, seg, body, c := RawGrammar(d, rs), GrammarCode(d, rs), GenRules(d, rs, rs), RuleCode(d, rs, k);
    RawShape(d, rs);
    LinkFromResolves(raw, 4, pos, UsedRules(rs));
    RuleStands(d, rs, rs, 4, k);
    var ps := Shifted(pos, a);
    forall x | 0 <= x < |c| ensures SlotOK(code, ps[k] + x, c[x], ps) {
      var y := pos[k] + x;
      assert c[x] == body[y - 4] == raw[4..][y - 4] == raw[y];
      assert code[a + y] == seg[y];
      if IsOpen(c[x]) {
        OpenKey(raw, UsedRules(rs), y);
        ResolvedShift(code, a, seg, y, pos[raw[y].key]);
      }
    }
  }
}
