/**
 * Rules that jump in a circle. A rule whose code begins with a jump to another rule is what can send
 * the compiler's search for a final target around for ever, so this decides which patterns can be
 * compiled at all.
 */
module LpegCircle {
  import opened LpegTree
  import opened LpegAnalysis
  import opened LpegVm
  import opened LpegCodegen
  import opened LpegLink
  import opened LpegHead
  import opened Growth

  /** From rule `k` on, at most `n` rules in a row begin with a jump to the next one. */
  predicate Ends(d: nat, rs: seq<Tree>, k: nat, n: nat)
    decreases n
  {
    k < |rs| ==>
      match HeadOf(d, rs, rs[k])
      case ToRule(j, true) => n > 0 && Ends(d, rs, j, n - 1)
      case _ => true
  }

  predicate NoCircle(d: nat, rs: seq<Tree>) { forall k: nat :: k < |rs| ==> Ends(d, rs, k, |rs|) }

  /** In no grammar of the tree that is compiled do rules jump in a circle. (The code of a headfail
      pattern under a negation is never emitted.) */
  predicate JumpsEnd(d: nat, g: seq<Tree>, t: Tree)
    decreases t
  {
    match t
    case TRep(p) => JumpsEnd(d, g, p)
    case TNot(p) => HeadFail(g, p, d) || JumpsEnd(d, g, p)
    case TAnd(p) => JumpsEnd(d, g, p)
    case TBehind(_, p) => JumpsEnd(d, g, p)
    case TSeq(p1, p2) => JumpsEnd(d, g, p1) && JumpsEnd(d, g, p2)
    case TChoice(p1, p2) => JumpsEnd(d, g, p1) && JumpsEnd(d, g, p2)
    case TGrammar(rs) => NoCircle(d, rs) && forall k :: 0 <= k < |rs| ==> JumpsEnd(d, rs, rs[k])
    case _ => true
  }

  lemma {:induction false} EndsMore(d: nat, rs: seq<Tree>, k: nat, n: nat, m: nat)
    requires Ends(d, rs, k, n) && n <= m
    ensures Ends(d, rs, k, m)
    decreases n
  {
    if k < |rs| {
      match HeadOf(d, rs, rs[k])
      case ToRule(j, true) => EndsMore(d, rs, j, n - 1, m - 1);
      case _ =>
    }
  }

  ghost function EndSet(d: nat, rs: seq<Tree>, n: nat): set<nat> { set k: nat | k < |rs| && Ends(d, rs, k, n) }

  lemma EndSetStep(d: nat, rs: seq<Tree>, n: nat)
    ensures EndSet(d, rs, n) <= EndSet(d, rs, n + 1)
    ensures EndSet(d, rs, n) == EndSet(d, rs, n + 1) ==> EndSet(d, rs, n + 1) == EndSet(d, rs, n + 2)
  {
    var e0, e1, e2 := EndSet(d, rs, n), EndSet(d, rs, n + 1), EndSet(d, rs, n + 2);
    forall k | k in e0 ensures k in e1 { EndsMore(d, rs, k, n, n + 1); }
    forall k | k in e1 ensures k in e2 { EndsMore(d, rs, k, n + 1, n + 2); }
    if e0 == e1 {
      forall k | k in e2 ensures k in e1 {
        assert Ends(d, rs, k, n + 2);
        match HeadOf(d, rs, rs[k])
        case ToRule(j, true) =>
          assert Ends(d, rs, j, n + 1);
          assert Ends(d, rs, j, n) by { if j < |rs| { assert j in e1; } }
        case _ =>
        assert Ends(d, rs, k, n + 1);
      }
    }
  }

  lemma EndSets(d: nat, rs: seq<Tree>) returns (e: nat -> set<nat>)
    ensures Growing(e) && forall n: nat :: e(n) == EndSet(d, rs, n)
  {
    hide EndSet;
    e := (n: nat) => EndSet(d, rs, n);
    forall n: nat ensures e(n) <= e(n + 1) { EndSetStep(d, rs, n); }
    forall n: nat | e(n) == e(n + 1) ensures e(n + 1) == e(n + 2) { EndSetStep(d, rs, n); }
  }

  /** A chain of rules that ends at all ends before it could visit a rule twice. */
  lemma EndsSoon(d: nat, rs: seq<Tree>, k: nat, n: nat)
    requires Ends(d, rs, k, n)
    ensures Ends(d, rs, k, |rs|)
  {
    if k < |rs| {
      if n <= |rs| {
        EndsMore(d, rs, k, n, |rs|);
      } else {
        var e := EndSets(d, rs);
        Stands(e, |rs|, n);
        assert k in e(n);
      }
    } else {
      assert Ends(d, rs, k, |rs|);
    }
  }

  // ------------------------------------------------------------------ where a rule begins

  /** `HeadAt` for code at `p` that is followed by `IRet`. */
  ghost predicate StartsAs(c: Code, p: int, h: Head) {
    match h
    case ToRule(j, tail) =>
      exists q: nat :: Fwd(c, p, q) && CallAt(c, q, j) && (if tail then RetAt(c, q + 2) else GoesOn(c, q))
    case _ =>
      exists q: nat :: Fwd(c, p, q) && q < |c| && c[q].Op? && c[q].op != IJmp && !IsOpen(c[q])
  }

  lemma BodyStarts(c: Code, p: nat, body: Code, h: Head)
    requires Within(c, p, body + [I(IRet)]) && HeadAt(body, h)
    ensures StartsAs(c, p, h)
  {
    hide Fwd, GoesOn, RetAt;
    assert Within(c, p, body) by {
      forall y | 0 <= y < |body| ensures c[p + y] == body[y] { assert (body + [I(IRet)])[y] == body[y]; }
    }
    assert c[p + |body|] == (body + [I(IRet)])[|body|] == I(IRet);
    match h
    case Through => FwdLift(c, p, body, 0, |body|);
    case Stops =>
      var q: nat :| Fwd(body, 0, q) && Waits(body, q) && !IsOpen(body[q]);
      FwdLift(c, p, body, 0, q);
    case ToRule(j, tail) =>
      var q: nat :| Fwd(body, 0, q) && CallAt(body, q, j) && (if tail then Fwd(body, q + 2, |body|) else GoesOn(body, q));
      var x: nat := p + q;
      FwdLift(c, p, body, 0, q);
      assert c[x] == body[q] && c[p + (q + 1)] == body[q + 1];
      assert p + (q + 2) == x + 2;
      if tail {
        FwdLift(c, p, body, q + 2, |body|);
        FwdRet(c, x + 2, p + |body|);
      } else {
        GoesOnLift(c, p, body, q);
      }
      assert Fwd(c, p, x) && CallAt(c, x, j);
  }

  lemma FwdRet(c: Code, x: int, y: int)
    requires Fwd(c, x, y) && IsOp(c, y, IRet)
    ensures RetAt(c, x)
  {}

  lemma RuleBegins(d: nat, rs: seq<Tree>, k: nat)
    requires k < |rs| && forall k :: 0 <= k < |rs| ==> WellFormed(d, rs, rs[k])
    ensures StartsAs(RawGrammar(d, rs), Positions(d, rs, rs, 4)[k], HeadOf(d, rs, rs[k]))
  {
    hide Gen, GenRules, Shape, HeadAt, StartsAs, HeadOf;
    var body := Gen(d, rs, rs[k], false, NoTest, FullSet);
    var raw, p := RawGrammar(d, rs), Positions(d, rs, rs, 4)[k];
    RawShape(d, rs);
    RuleStands(d, rs, rs, 4, k);
    HeadCode(d, rs, rs[k], false, NoTest, FullSet);
    var c := body + [I(IRet)];
    forall y | 0 <= y < |c| ensures raw[p + y] == c[y] {
      assert c[y] == GenRules(d, rs, rs)[p - 4..p - 4 + |c|][y] == raw[4..][p - 4 + y];
    }
    BodyStarts(raw, p, body, HeadOf(d, rs, rs[k]));
  }

  // ------------------------------------------------------------------ closing the calls

  lemma {:induction false} FollowSame(code: Code, code': Code, x: int, n: nat) returns (m: nat)
    requires SameClosed(code, code')
    ensures Follow(code', x, m) == Follow(code, x, n)
    decreases n
  {
    m := 0;
    if n > 0 && IsOp(code, x, IJmp) && HasOff(code, x) {
      m := FollowSame(code, code', Target(code, x), n - 1);
      m := m + 1;
    }
  }

  lemma FwdSame(code: Code, code': Code, x: int, y: int)
    requires SameClosed(code, code') && Fwd(code, x, y)
    ensures Fwd(code', x, y)
  {
    var n: nat :| y == Follow(code, x, n);
    var m := FollowSame(code, code', x, n);
  }

  /** A chain of jumps ends in one place only. */
  lemma OneEnd(c: Code, x: int, y: int, z: int)
    requires Fwd(c, x, y) && Fwd(c, x, z) && !IsOp(c, y, IJmp) && !IsOp(c, z, IJmp)
    ensures y == z
  {
    var n: nat :| y == Follow(c, x, n);
    var m: nat :| z == Follow(c, x, m);
    FollowSplit(c, x, n, m);
    FollowSplit(c, x, m, n);
    assert n + m == m + n;
  }

  lemma GoesOnNoRet(c: Code, q: nat)
    requires GoesOn(c, q)
    ensures !RetAt(c, q + 2)
  {
    var y: nat :| q + 2 <= y && Fwd(c, q + 2, y) && Waits(c, y);
    assert Waits(c, y);
    if RetAt(c, q + 2) {
      var m: nat :| IsOp(c, Follow(c, q + 2, m), IRet);
      OneEnd(c, q + 2, y, Follow(c, q + 2, m));
    }
  }

  lemma GoesOnStays(code: Code, i: nat, target: nat, q: nat)
    requires i + 1 < |code| && IsOpen(code[i]) && code[i + 1] == Hole && i < q && GoesOn(code, q)
    ensures GoesOn(CloseOne(code, i, target), q)
  {
    hide RetAt;
    var code' := CloseOne(code, i, target);
    var y: nat :| q + 2 <= y && Fwd(code, q + 2, y) && Waits(code, y);
    FwdSame(code, code', q + 2, y);
    assert Waits(code, y);
    assert code'[y] == code[y];
    assert Waits(code', y);
  }

  /** An open call becomes a jump when nothing is left to do behind it, and a call when something is. */
  lemma {:induction false} LinkedAs(code: Code, i: nat, ps: seq<nat>, ks: set<nat>, x: nat)
    requires i <= x < |code| && Shape(code, ks) && Below(ks, |ps|) && code[i].Op? && IsOpen(code[x])
    ensures RetAt(code, x + 2) ==> IsOp(LinkFrom(code, i, ps), x, IJmp)
    ensures GoesOn(code, x) ==> IsOp(LinkFrom(code, i, ps), x, ICall)
    decreases x - i
  {
    hide LinkFrom, Shape, RetAt, SizeI, GoesOn;
    LinkStep(code, i, ps, ks);
    SizePositive(code[i].op);
    if GoesOn(code, x) { GoesOnNoRet(code, x); }
    if !IsOpen(code[i]) {
      LinkedAs(code, i + SizeI(code[i].op), ps, ks, x);
    } else {
      var linked := CloseOne(code, i, ps[code[i].key]);
      if x == i {
        LinkFromBefore(linked, i + 2, ps, x);
      } else {
        CloseOneShape(code, i, ps[code[i].key], ks);
        CloseOneSame(code, i, ps[code[i].key]);
        if RetAt(code, x + 2) { RetStays(code, linked, x + 2); }
        if GoesOn(code, x) { GoesOnStays(code, i, ps[code[i].key], x); }
        LinkedAs(linked, i + 2, ps, ks, x);
      }
    }
  }

  lemma CloseOneSame(code: Code, i: nat, target: nat)
    requires i + 1 < |code| && IsOpen(code[i]) && code[i + 1] == Hole
    ensures var r := CloseOne(code, i, target);
            SameClosed(code, r) && forall x :: 0 <= x < |code| && x != i && x != i + 1 ==> r[x] == code[x]
  {
    hide RetAt;
  }

  /** What a rule of the linked grammar begins with: a jump to another rule, exactly when its code
      begins with a call behind which only the return is left. */
  lemma RuleStart(d: nat, rs: seq<Tree>, k: nat) returns (q: nat)
    requires k < |rs| && forall k :: 0 <= k < |rs| ==> WellFormed(d, rs, rs[k])
    ensures var c, ps, h := GrammarCode(d, rs), Positions(d, rs, rs, 4), HeadOf(d, rs, rs[k]);
            Fwd(c, ps[k], q)
            && if h.ToRule? && h.tail then h.k < |rs| && IsLabel(c, q, IJmp, ps[h.k]) else !IsOp(c, q, IJmp)
  {
    hide Gen, GenRules, Shape, HeadAt, HeadOf, LinkFrom, RawGrammar, Positions, Fwd, RetAt, GoesOn, InstrOK, UsedRules, CheckAux, FixedLen, WellFormed;
    var raw, c, ps, h := RawGrammar(d, rs), GrammarCode(d, rs), Positions(d, rs, rs, 4), HeadOf(d, rs, rs[k]);
    RawShape(d, rs);
    UsedBelow(rs);
    LinkFromResolves(raw, 4, ps, UsedRules(rs));
    RuleBegins(d, rs, k);
    match h
    case ToRule(j, tail) =>
      var x: nat :| Fwd(raw, ps[k], x) && CallAt(raw, x, j) && (if tail then RetAt(raw, x + 2) else GoesOn(raw, x));
      q := x;
      FwdSame(raw, c, ps[k], q);
      assert q >= 4;
      LinkedAs(raw, 4, ps, UsedRules(rs), q);
      assert raw[q].key < |ps| && Resolved(c, q, ps[raw[q].key]);
    case _ =>
      var x: nat :| Fwd(raw, ps[k], x) && x < |raw| && raw[x].Op? && raw[x].op != IJmp && !IsOpen(raw[x]);
      q := x;
      FwdSame(raw, c, ps[k], q);
  }

  lemma UsedBelow(rs: seq<Tree>)
    ensures Below(UsedRules(rs), |rs|)
  {}

  lemma {:induction false} RuleStartSettles(d: nat, rs: seq<Tree>, k: nat, n: nat)
    requires k < |rs| && forall k :: 0 <= k < |rs| ==> WellFormed(d, rs, rs[k])
    requires Ends(d, rs, k, n)
    ensures Settles(GrammarCode(d, rs), Positions(d, rs, rs, 4)[k])
    decreases n
  {
    hide Gen, GrammarCode, Positions, Settles, HeadOf, WellFormed;
    var c, ps, h := GrammarCode(d, rs), Positions(d, rs, rs, 4), HeadOf(d, rs, rs[k]);
    var q := RuleStart(d, rs, k);
    if h.ToRule? && h.tail {
      RuleStartSettles(d, rs, h.k, n - 1);
      JumpSettles(c, q, ps[h.k]);
    } else {
      NotJump(c, q);
    }
    FwdSettles(c, ps[k], q);
  }

  // ------------------------------------------------------------------ chains that never end

  predicate Hop(c: Code, x: int) { IsOp(c, x, IJmp) && HasOff(c, x) }

  /** Some chain of jumps never ends. */
  ghost predicate Endless(c: Code) {
    exists x: nat :: x <= |c| && EndlessFrom(c, x)
  }

  ghost predicate EndlessFrom(c: Code, x: int) { forall n: nat :: Hop(c, Follow(c, x, n)) }

  lemma StaysPut(c: Code, x: int, n: nat, m: nat)
    requires n <= m && !Hop(c, Follow(c, x, n))
    ensures Follow(c, x, m) == Follow(c, x, n)
  {
    FollowSplit(c, x, n, m - n);
  }

  /** A chain from the start of a rule that ends has passed finitely many rules. */
  lemma {:induction false} ChainEnds(d: nat, rs: seq<Tree>, k: nat, n: nat)
    requires k < |rs| && forall k :: 0 <= k < |rs| ==> WellFormed(d, rs, rs[k])
    requires !Hop(GrammarCode(d, rs), Follow(GrammarCode(d, rs), Positions(d, rs, rs, 4)[k], n))
    ensures Ends(d, rs, k, n)
    decreases n
  {
    hide Gen, GrammarCode, Positions, HeadOf, WellFormed;
    var c, ps, h := GrammarCode(d, rs), Positions(d, rs, rs, 4), HeadOf(d, rs, rs[k]);
    var q := RuleStart(d, rs, k);
    if h.ToRule? && h.tail {
      var m: nat :| q == Follow(c, ps[k], m);
      if n <= m { StaysPut(c, ps[k], n, m); }
      FollowSplit(c, ps[k], m, n - m);
      assert Follow(c, q, n - m) == Follow(c, ps[h.k], n - m - 1);
      ChainEnds(d, rs, h.k, n - m - 1);
      EndsMore(d, rs, h.k, n - m - 1, n - 1);
    }
  }

  lemma CircleEndless(d: nat, rs: seq<Tree>)
    requires forall k :: 0 <= k < |rs| ==> WellFormed(d, rs, rs[k])
    requires !NoCircle(d, rs)
    ensures Endless(GrammarCode(d, rs))
  {
    hide Gen, GrammarCode, Positions, Ends, WellFormed, Follow, Hop;
    var c, ps := GrammarCode(d, rs), Positions(d, rs, rs, 4);
    var k: nat :| k < |rs| && !Ends(d, rs, k, |rs|);
    forall n: nat ensures Hop(c, Follow(c, ps[k], n)) {
      if !Hop(c, Follow(c, ps[k], n)) {
        ChainEnds(d, rs, k, n);
        EndsSoon(d, rs, k, n);
      }
    }
    RuleStarts(d, rs, k);
    assert EndlessFrom(c, ps[k]);
  }

  lemma RuleStarts(d: nat, rs: seq<Tree>, k: nat)
    requires k < |rs|
    ensures 0 <= Positions(d, rs, rs, 4)[k] <= |GrammarCode(d, rs)|
  {
    hide Gen, GenRules, LinkFrom;
    RuleStands(d, rs, rs, 4, k);
    assert |GrammarCode(d, rs)| == |RawGrammar(d, rs)| == 4 + |GenRules(d, rs, rs)|;
  }

  /** Every jump of `seg` is a jump of `c`, `o` further on. */
  ghost predicate KeepsHops(c: Code, o: nat, seg: Code) {
    o + |seg| <= |c| && forall y :: Hop(seg, y) ==> c[o + y] == seg[y] && c[o + y + 1] == seg[y + 1]
  }

  lemma {:induction false} HopsLift(c: Code, o: nat, seg: Code, x: int, n: nat)
    requires KeepsHops(c, o, seg) && EndlessFrom(seg, x)
    ensures Follow(c, o + x, n) == o + Follow(seg, x, n)
    decreases n
  {
    assert Hop(seg, Follow(seg, x, 0));
    if n > 0 {
      var y := Target(seg, x);
      forall k: nat ensures Hop(seg, Follow(seg, y, k)) { assert Follow(seg, y, k) == Follow(seg, x, k + 1); }
      HopsLift(c, o, seg, y, n - 1);
    }
  }

  lemma EndlessLift(c: Code, o: nat, seg: Code)
    requires KeepsHops(c, o, seg) && Endless(seg)
    ensures Endless(c)
  {
    var x: nat :| x <= |seg| && EndlessFrom(seg, x);
    var z: nat := o + x;
    forall n: nat ensures Hop(c, Follow(c, z, n)) {
      HopsLift(c, o, seg, x, n);
      assert Hop(seg, Follow(seg, x, n));
    }
    assert EndlessFrom(c, z);
  }

  lemma EndlessMiddle(pre: Code, seg: Code, post: Code)
    requires Endless(seg)
    ensures Endless(pre + seg + post)
  {
    var c := pre + seg + post;
    assert KeepsHops(c, |pre|, seg) by {
      forall y | Hop(seg, y) ensures c[|pre| + y] == seg[y] && c[|pre| + y + 1] == seg[y + 1] {}
    }
    EndlessLift(c, |pre|, seg);
  }

  lemma EndlessEnd(pre: Code, seg: Code)
    requires Endless(seg)
    ensures Endless(pre + seg)
  {
    EndlessMiddle(pre, seg, []);
    assert pre + seg + [] == pre + seg;
  }

  lemma EndlessStart(seg: Code, post: Code)
    requires Endless(seg)
    ensures Endless(seg + post)
  {
    EndlessMiddle([], seg, post);
    assert [] + seg + post == seg + post;
  }

  /** A circle in any grammar that is compiled shows in the code as a chain of jumps without end. */
  lemma {:induction false} CircleShows(d: nat, g: seq<Tree>, t: Tree, opt: bool, tt: Test, fl: set<byte>)
    requires WellFormed(d, g, t) && !JumpsEnd(d, g, t)
    ensures Endless(Gen(d, g, t, opt, tt, fl))
    decreases t, 1
  {
    hide Gen, GenChoice, GenRep, GenNot, GenAnd, GrammarCode, GetFirst, FixedLen, HeadFail, Endless, NoCircle;
    GenUnfolds(d, g, t, opt, tt, fl);
    match t
    case TChoice(_, _) => ChoiceShows(d, g, t, opt, fl);
    case TRep(_) => RepShows(d, g, t, opt, fl);
    case TNot(p) =>
      var c := Gen(d, g, p, false, NoTest, FullSet);
      var f := GetFirst(g, p, FullSet, d);
      CircleShows(d, g, p, false, NoTest, FullSet);
      EndlessMiddle(GenTestIf(f, TestIfLen(f) + 3 + |c|) + Jump(IChoice, 3 + |c|), c, [I(IFailTwice)]);
      NotIs(d, g, t);
    case TAnd(_) => AndShows(d, g, t, tt);
    case TBehind(n, p) =>
      CircleShows(d, g, p, false, NoTest, FullSet);
      EndlessEnd(if n > 0 then [Op(IBehind, n, 0)] else [], Gen(d, g, p, false, NoTest, FullSet));
    case TSeq(p1, p2) =>
      var fl1 := if NeedFollow(p1) then GetFirst(g, p2, fl, d).cs else FullSet;
      var tt2 := if FixedLen(g, p1, d) != 0 then NoTest else tt;
      var c1, c2 := Gen(d, g, p1, false, tt, fl1), Gen(d, g, p2, opt, tt2, fl);
      if !JumpsEnd(d, g, p1) {
        CircleShows(d, g, p1, false, tt, fl1);
        EndlessStart(c1, c2);
      } else {
        CircleShows(d, g, p2, opt, tt2, fl);
        EndlessEnd(c1, c2);
      }
    case TGrammar(rs) => GrammarShows(d, rs);
    case _ => assert false;
  }

  lemma NotIs(d: nat, g: seq<Tree>, t: Tree)
    requires t.TNot? && !HeadFail(g, t.p, d)
    ensures var f, c := GetFirst(g, t.p, FullSet, d), Gen(d, g, t.p, false, NoTest, FullSet);
            GenNot(d, g, t) == GenTestIf(f, TestIfLen(f) + 3 + |c|) + Jump(IChoice, 3 + |c|) + c + [I(IFailTwice)]
  {
    hide Gen, GetFirst, GenTestIf;
  }

  lemma {:induction false} ChoiceShows(d: nat, g: seq<Tree>, t: Tree, opt: bool, fl: set<byte>)
    requires t.TChoice? && WellFormed(d, g, t) && !JumpsEnd(d, g, t)
    ensures Endless(GenChoice(d, g, t, opt, fl))
    decreases t, 0
  {
    hide Gen, GetFirst, HeadFail, FixedLen, ByHead, Endless, GenTest, TestLen, TestOf, GenTestIf, TestIfLen, TestOfIf;
    var p1, p2 := t.p1, t.p2;
    var f1 := GetFirst(g, p1, FullSet, d);
    var c2 := Gen(d, g, p2, opt, NoTest, fl);
    if !JumpsEnd(d, g, p2) { CircleShows(d, g, p2, opt, NoTest, fl); }
    if ByHead(d, g, p1, p2, fl) {
      var c1 := Gen(d, g, p1, false, TestOf(f1.cs), fl);
      var jmp := if p2.TTrue? then [] else Jump(IJmp, 2 + |c2|);
      var test := GenTest(f1.cs, TestLen(f1.cs) + |c1| + |jmp|);
      if !JumpsEnd(d, g, p1) {
        CircleShows(d, g, p1, false, TestOf(f1.cs), fl);
        EndlessMiddle(test, c1, jmp + c2);
        assert test + c1 + (jmp + c2) == test + c1 + jmp + c2;
      } else {
        EndlessEnd(test + c1 + jmp, c2);
      }
    } else if opt && p2.TTrue? {
      CircleShows(d, g, p1, true, NoTest, FullSet);
      EndlessEnd(Jump(IPartialCommit, 2), Gen(d, g, p1, true, NoTest, FullSet));
    } else {
      var c1 := Gen(d, g, p1, p2.TTrue?, TestOfIf(f1), FullSet);
      var pre := GenTestIf(f1, TestIfLen(f1) + 4 + |c1|) + Jump(IChoice, 4 + |c1|);
      if !JumpsEnd(d, g, p1) {
        CircleShows(d, g, p1, p2.TTrue?, TestOfIf(f1), FullSet);
        EndlessMiddle(pre, c1, Jump(ICommit, 2 + |c2|) + c2);
        assert pre + c1 + (Jump(ICommit, 2 + |c2|) + c2) == pre + c1 + Jump(ICommit, 2 + |c2|) + c2;
      } else {
        EndlessEnd(pre + c1 + Jump(ICommit, 2 + |c2|), c2);
      }
    }
  }

  lemma {:induction false} RepShows(d: nat, g: seq<Tree>, t: Tree, opt: bool, fl: set<byte>)
    requires t.TRep? && WellFormed(d, g, t) && !JumpsEnd(d, g, t)
    ensures Endless(GenRep(d, g, t, opt, fl))
    decreases t, 0
  {
    hide Gen, GetFirst, HeadFail, FixedLen, ByHeadRep, Endless, GenTest, TestLen, TestOf, GenTestIf, TestIfLen;
    var p := t.p;
    var f := GetFirst(g, p, FullSet, d);
    if ByHeadRep(d, g, p, fl) {
      var c := Gen(d, g, p, false, TestOf(f.cs), FullSet);
      var n := TestLen(f.cs) + |c|;
      CircleShows(d, g, p, false, TestOf(f.cs), FullSet);
      EndlessMiddle(GenTest(f.cs, n + 2), c, Jump(IJmp, -n));
    } else {
      var c := Gen(d, g, p, false, NoTest, FullSet);
      var enter := if opt then Jump(IPartialCommit, 2) else Jump(IChoice, 4 + |c|);
      CircleShows(d, g, p, false, NoTest, FullSet);
      EndlessMiddle(GenTestIf(f, TestIfLen(f) + 4 + |c|) + enter, c, Jump(IPartialCommit, -|c|));
    }
  }

  lemma {:induction false} AndShows(d: nat, g: seq<Tree>, t: Tree, tt: Test)
    requires t.TAnd? && WellFormed(d, g, t) && !JumpsEnd(d, g, t)
    ensures Endless(GenAnd(d, g, t, tt))
    decreases t, 0
  {
    hide Gen, FixedLen, Endless;
    var n := FixedLen(g, t.p, d);
    var c := Gen(d, g, t.p, false, tt, FullSet);
    CircleShows(d, g, t.p, false, tt, FullSet);
    if 0 <= n <= MAXBEHIND {
      EndlessStart(c, if n > 0 then [Op(IBehind, n, 0)] else []);
    } else {
      EndlessMiddle(Jump(IChoice, 4 + |c|), c, Jump(IBackCommit, 3) + [I(IFail)]);
      assert Jump(IChoice, 4 + |c|) + c + (Jump(IBackCommit, 3) + [I(IFail)]) == Jump(IChoice, 4 + |c|) + c + Jump(IBackCommit, 3) + [I(IFail)];
    }
  }

  lemma {:induction false} GrammarShows(d: nat, rs: seq<Tree>)
    requires forall k :: 0 <= k < |rs| ==> WellFormed(d, rs, rs[k])
    requires !JumpsEnd(d, [], TGrammar(rs))
    ensures Endless(GrammarCode(d, rs))
    decreases rs, 2
  {
    hide Gen, GrammarCode, Endless, NoCircle, WellFormed;
    if !NoCircle(d, rs) {
      CircleEndless(d, rs);
    } else {
      var k: nat :| k < |rs| && !JumpsEnd(d, rs, rs[k]);
      CircleShows(d, rs, rs[k], false, NoTest, FullSet);
      RuleShows(d, rs, k);
    }
  }

  /** The code of a rule stands in the code of the grammar. */
  lemma RuleShows(d: nat, rs: seq<Tree>, k: nat)
    requires k < |rs| && forall k :: 0 <= k < |rs| ==> WellFormed(d, rs, rs[k])
    requires Endless(Gen(d, rs, rs[k], false, NoTest, FullSet))
    ensures Endless(GrammarCode(d, rs))
  {
    hide Gen, GenRules, Endless, LinkFrom, Shape, WellFormed, Positions, RawGrammar;
    var body := Gen(d, rs, rs[k], false, NoTest, FullSet);
    var raw, ps := RawGrammar(d, rs), Positions(d, rs, rs, 4);
    RuleStands(d, rs, rs, 4, k);
    RawShape(d, rs);
    UsedBelow(rs);
    LinkFromResolves(raw, 4, ps, UsedRules(rs));
    EndlessStart(body, [I(IRet)]);
    var c, rules := body + [I(IRet)], GenRules(d, rs, rs);
    EndlessSlice(rules, ps[k] - 4, c);
    EndlessEnd(raw[..4], rules);
    assert raw[..4] + raw[4..] == raw;
    SameHops(raw, GrammarCode(d, rs));
    EndlessLift(GrammarCode(d, rs), 0, raw);
  }

  lemma EndlessSlice(all: Code, o: nat, c: Code)
    requires o + |c| <= |all| && all[o..o + |c|] == c && Endless(c)
    ensures Endless(all)
  {
    hide Endless;
    EndlessMiddle(all[..o], c, all[o + |c|..]);
    assert all[..o] + c + all[o + |c|..] == all;
  }

  lemma SameHops(code: Code, code': Code)
    requires SameClosed(code, code')
    ensures KeepsHops(code', 0, code)
  {}
}
