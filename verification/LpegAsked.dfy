/**
 * What code generation asks the analyses. It comes back exactly when all of them answer, and with
 * enough room the code does not depend on how much room there is.
 */
module LpegAsked {
  import opened LpegTree
  import opened LpegAnalysis
  import opened LpegVm
  import opened LpegCodegen
  import opened LpegLink
  import opened LpegDepth

  predicate HasFirst(d: nat, g: seq<Tree>, t: Tree) { FirstSet(g, t, FullSet, d).Is? }

  /** The first set and `headfail`, which are asked for together. */
  predicate Tested(d: nat, g: seq<Tree>, t: Tree) { HasFirst(d, g, t) && HeadTest(g, t, d).Is? }

  /** Every analysis that generating code for the pattern asks for has an answer. */
  predicate Analysed(d: nat, g: seq<Tree>, t: Tree)
    decreases t
  {
    match t
    case TRep(p) => (ToCharset(p).YesSet? || Tested(d, g, p)) && Analysed(d, g, p)
    case TNot(p) => Tested(d, g, p) && (HeadFail(g, p, d) || Analysed(d, g, p))
    case TAnd(p) => Analysed(d, g, p)
    case TBehind(_, p) => Analysed(d, g, p)
    case TSeq(p1, p2) => (NeedFollow(p1) ==> HasFirst(d, g, p2)) && Analysed(d, g, p1) && Analysed(d, g, p2)
    case TChoice(p1, p2) =>
      Tested(d, g, p1) && (HeadFail(g, p1, d) || GetFirst(g, p1, FullSet, d).empty || HasFirst(d, g, p2))
      && Analysed(d, g, p1) && Analysed(d, g, p2)
    case TGrammar(rs) => forall k :: 0 <= k < |rs| ==> Analysed(d, rs, rs[k])
    case _ => true
  }

  // ------------------------------------------------------------------ enough room

  /** Room for a complete pattern. */
  function Enough(t: Tree): nat { Room([], t) }

  lemma FinishesRoom(q: Query, g: seq<Tree>, t: Tree, n: nat, m: nat)
    requires Room(g, t) <= n && Finishes(q, g, t, m)
    ensures Finishes(q, g, t, n)
  {
    hide Finishes, Depth, DepthAll;
    Final(Larger(DepthAll(g), Depth(t)), q, g, t, n, m);
  }

  lemma FirstFinal(g: seq<Tree>, t: Tree, follow: set<byte>, n: nat, m: nat)
    requires Room(g, t) <= n && FirstSet(g, t, follow, m).Is?
    ensures FirstSet(g, t, follow, n) == FirstSet(g, t, follow, m)
  {
    hide Room;
    FirstEnds(g, t, follow, FullSet, m);
    FinishesRoom(FirstOf, g, t, n, m);
    FirstEnds(g, t, follow, FullSet, n);
    if m <= n { FirstMore(g, t, follow, m, n); } else { FirstMore(g, t, follow, n, m); }
  }

  lemma HeadFinal(g: seq<Tree>, t: Tree, n: nat, m: nat)
    requires Room(g, t) <= n && HeadTest(g, t, m).Is?
    ensures HeadTest(g, t, n) == HeadTest(g, t, m)
  {
    hide Room;
    FinishesRoom(IsHeadfail, g, t, n, m);
    if m <= n { HeadMore(g, t, m, n); } else { HeadMore(g, t, n, m); }
  }

  lemma LengthFinal(g: seq<Tree>, t: Tree, n: nat, m: nat)
    requires Room(g, t) <= n && FixedLen(g, t, m) >= 0
    ensures FixedLen(g, t, n) == FixedLen(g, t, m)
  {
    hide Room;
    FinishesRoom(Length, g, t, n, m);
    if m <= n { LengthMore(g, t, m, n); } else { LengthMore(g, t, n, m); }
  }

  lemma PartsRoom(g: seq<Tree>, t: Tree)
    ensures t.TRep? || t.TNot? || t.TAnd? || t.TBehind? ==> Room(g, t.p) <= Room(g, t)
    ensures t.TSeq? || t.TChoice? ==> Room(g, t.p1) <= Room(g, t) && Room(g, t.p2) <= Room(g, t)
    ensures t.TGrammar? ==> forall k :: 0 <= k < |t.rules| ==> Room(t.rules, t.rules[k]) <= Room(g, t)
  {}

  lemma TestedFinal(d: nat, d': nat, g: seq<Tree>, t: Tree)
    requires Room(g, t) <= d' && Tested(d, g, t)
    ensures Tested(d', g, t) && HeadFail(g, t, d') == HeadFail(g, t, d)
    ensures GetFirst(g, t, FullSet, d') == GetFirst(g, t, FullSet, d)
  {
    hide Room;
    FirstFinal(g, t, FullSet, d', d);
    HeadFinal(g, t, d', d);
  }

  lemma HasFirstFinal(d: nat, d': nat, g: seq<Tree>, t: Tree)
    requires Room(g, t) <= d' && HasFirst(d, g, t)
    ensures HasFirst(d', g, t)
  {
    hide Room;
    FirstFinal(g, t, FullSet, d', d);
  }

  /** Analyses that end at all end with enough room. */
  lemma {:induction false} AnalysedFinal(d: nat, d': nat, g: seq<Tree>, t: Tree)
    requires Room(g, t) <= d' && Analysed(d, g, t)
    ensures Analysed(d', g, t)
    decreases t
  {
    hide Room, Tested, HasFirst, HeadFail, GetFirst;
    PartsRoom(g, t);
    match t
    case TRep(p) =>
      if ToCharset(p).NoSet? { TestedFinal(d, d', g, p); }
      AnalysedFinal(d, d', g, p);
    case TNot(p) =>
      TestedFinal(d, d', g, p);
      if !HeadFail(g, p, d) { AnalysedFinal(d, d', g, p); }
    case TAnd(p) => AnalysedFinal(d, d', g, p);
    case TBehind(_, p) => AnalysedFinal(d, d', g, p);
    case TSeq(p1, p2) =>
      if NeedFollow(p1) { HasFirstFinal(d, d', g, p2); }
      AnalysedFinal(d, d', g, p1);
      AnalysedFinal(d, d', g, p2);
    case TChoice(p1, p2) =>
      TestedFinal(d, d', g, p1);
      if HasFirst(d, g, p2) { HasFirstFinal(d, d', g, p2); }
      AnalysedFinal(d, d', g, p1);
      AnalysedFinal(d, d', g, p2);
    case TGrammar(rs) =>
      forall k | 0 <= k < |rs| ensures Analysed(d', rs, rs[k]) { AnalysedFinal(d, d', rs, rs[k]); }
    case _ =>
  }

  /** Whether code generation comes back can be decided: it does with some room if and only if it does
      with the room that can be read off the pattern. */
  lemma AnalysedSoon(t: Tree)
    ensures (exists d: nat :: Analysed(d, [], t)) <==> Analysed(Enough(t), [], t)
  {
    if exists d: nat :: Analysed(d, [], t) {
      var d: nat :| Analysed(d, [], t);
      AnalysedFinal(d, Enough(t), [], t);
    }
  }

  lemma {:induction false} WellFormedFinal(d: nat, d': nat, g: seq<Tree>, t: Tree)
    requires Room(g, t) <= d' && WellFormed(d, g, t)
    ensures WellFormed(d', g, t)
    decreases t
  {
    hide Room;
    PartsRoom(g, t);
    match t
    case TRep(p) => WellFormedFinal(d, d', g, p);
    case TNot(p) => WellFormedFinal(d, d', g, p);
    case TAnd(p) => WellFormedFinal(d, d', g, p);
    case TBehind(_, p) =>
      WellFormedFinal(d, d', g, p);
      LengthFinal(g, p, d', d);
    case TSeq(p1, p2) =>
      WellFormedFinal(d, d', g, p1);
      WellFormedFinal(d, d', g, p2);
    case TChoice(p1, p2) =>
      WellFormedFinal(d, d', g, p1);
      WellFormedFinal(d, d', g, p2);
    case TGrammar(rs) =>
      forall k | 0 <= k < |rs| ensures WellFormed(d', rs, rs[k]) { WellFormedFinal(d, d', rs, rs[k]); }
    case _ =>
  }

  // ------------------------------------------------------------------ the same code

  /** All that code generation learns about a pattern. */
  ghost predicate SameAnswers(d: nat, d': nat, g: seq<Tree>, t: Tree) {
    (forall follow: set<byte> :: GetFirst(g, t, follow, d') == GetFirst(g, t, follow, d))
    && HeadFail(g, t, d') == HeadFail(g, t, d) && FixedLen(g, t, d') == FixedLen(g, t, d)
  }

  lemma RoomAnswers(d: nat, d': nat, g: seq<Tree>, t: Tree)
    requires Room(g, t) <= d <= d'
    ensures SameAnswers(d, d', g, t)
  {
    hide Room;
    forall follow: set<byte> ensures GetFirst(g, t, follow, d') == GetFirst(g, t, follow, d) {
      FirstSettled(d, d', g, t, follow);
    }
    FirstSettled(d, d', g, t, FullSet);
    if HeadTest(g, t, d').Is? { HeadFinal(g, t, d, d'); } else if HeadTest(g, t, d).Is? { HeadMore(g, t, d, d'); }
    if FixedLen(g, t, d') >= 0 { LengthFinal(g, t, d, d'); } else if FixedLen(g, t, d) >= 0 { LengthMore(g, t, d, d'); }
  }

  lemma FirstSettled(d: nat, d': nat, g: seq<Tree>, t: Tree, follow: set<byte>)
    requires Room(g, t) <= d <= d'
    ensures FirstSet(g, t, follow, d') == FirstSet(g, t, follow, d)
  {
    hide Room;
    if FirstSet(g, t, follow, d').Is? {
      FirstFinal(g, t, follow, d, d');
    } else if FirstSet(g, t, follow, d).Is? {
      FirstMore(g, t, follow, d, d');
    }
  }

  /** The code of a pattern does not depend on how much room there is, once there is enough. */
  lemma {:induction false} GenSame(d: nat, d': nat, g: seq<Tree>, t: Tree, opt: bool, tt: Test, fl: set<byte>)
    requires Room(g, t) <= d <= d'
    ensures Gen(d', g, t, opt, tt, fl) == Gen(d, g, t, opt, tt, fl)
    decreases t, 1
  {
    hide Room, Gen, GenChoice, GenRep, GenNot, GenAnd, GrammarCode, GetFirst, HeadFail, FixedLen;
    PartsRoom(g, t);
    GenUnfolds(d, g, t, opt, tt, fl);
    GenUnfolds(d', g, t, opt, tt, fl);
    match t
    case TChoice(_, _) => ChoiceSame(d, d', g, t, opt, fl);
    case TRep(p) => RepSame(d, d', g, t, opt, fl);
    case TNot(p) => NotSame(d, d', g, t);
    case TAnd(p) => AndSame(d, d', g, t, tt);
    case TBehind(_, p) => GenSame(d, d', g, p, false, NoTest, FullSet);
    case TSeq(p1, p2) =>
      RoomAnswers(d, d', g, p1);
      RoomAnswers(d, d', g, p2);
      var fl1 := if NeedFollow(p1) then GetFirst(g, p2, fl, d).cs else FullSet;
      GenSame(d, d', g, p1, false, tt, fl1);
      GenSame(d, d', g, p2, opt, if FixedLen(g, p1, d) != 0 then NoTest else tt, fl);
    case TGrammar(rs) => GrammarSame(d, d', rs);
    case TCall(_) =>
    case _ => LeafSame(d, d', g, t, opt, tt, fl);
  }

  lemma LeafSame(d: nat, d': nat, g: seq<Tree>, t: Tree, opt: bool, tt: Test, fl: set<byte>)
    requires t.TChar? || t.TSet? || t.TAny? || t.TTrue? || t.TFalse?
    ensures Gen(d', g, t, opt, tt, fl) == Gen(d, g, t, opt, tt, fl)
  {}

  lemma {:induction false} ChoiceSame(d: nat, d': nat, g: seq<Tree>, t: Tree, opt: bool, fl: set<byte>)
    requires t.TChoice? && Room(g, t) <= d <= d'
    ensures GenChoice(d', g, t, opt, fl) == GenChoice(d, g, t, opt, fl)
    decreases t, 0
  {
    hide Room, Gen, GetFirst, HeadFail, FixedLen, GenTest, TestLen, TestOf, GenTestIf, TestIfLen, TestOfIf;
    PartsRoom(g, t);
    var p1, p2 := t.p1, t.p2;
    RoomAnswers(d, d', g, p1);
    RoomAnswers(d, d', g, p2);
    var f1 := GetFirst(g, p1, FullSet, d);
    GenSame(d, d', g, p2, opt, NoTest, fl);
    GenSame(d, d', g, p1, false, TestOf(f1.cs), fl);
    GenSame(d, d', g, p1, true, NoTest, FullSet);
    GenSame(d, d', g, p1, p2.TTrue?, TestOfIf(f1), FullSet);
  }

  lemma {:induction false} RepSame(d: nat, d': nat, g: seq<Tree>, t: Tree, opt: bool, fl: set<byte>)
    requires t.TRep? && Room(g, t) <= d <= d'
    ensures GenRep(d', g, t, opt, fl) == GenRep(d, g, t, opt, fl)
    decreases t, 0
  {
    hide Room, Gen, GetFirst, HeadFail, FixedLen, GenTest, TestLen, TestOf, GenTestIf, TestIfLen;
    PartsRoom(g, t);
    RoomAnswers(d, d', g, t.p);
    GenSame(d, d', g, t.p, false, TestOf(GetFirst(g, t.p, FullSet, d).cs), FullSet);
    GenSame(d, d', g, t.p, false, NoTest, FullSet);
  }

  lemma {:induction false} NotSame(d: nat, d': nat, g: seq<Tree>, t: Tree)
    requires t.TNot? && Room(g, t) <= d <= d'
    ensures GenNot(d', g, t) == GenNot(d, g, t)
    decreases t, 0
  {
    hide Room, Gen, GetFirst, HeadFail, FixedLen, GenTestIf, TestIfLen;
    PartsRoom(g, t);
    RoomAnswers(d, d', g, t.p);
    GenSame(d, d', g, t.p, false, NoTest, FullSet);
  }

  lemma {:induction false} AndSame(d: nat, d': nat, g: seq<Tree>, t: Tree, tt: Test)
    requires t.TAnd? && Room(g, t) <= d <= d'
    ensures GenAnd(d', g, t, tt) == GenAnd(d, g, t, tt)
    decreases t, 0
  {
    hide Room, Gen, GetFirst, HeadFail, FixedLen;
    PartsRoom(g, t);
    RoomAnswers(d, d', g, t.p);
    GenSame(d, d', g, t.p, false, tt, FullSet);
  }

  lemma {:induction false} RulesSame(d: nat, d': nat, g: seq<Tree>, rs: seq<Tree>, at: nat)
    requires d <= d' && forall k :: 0 <= k < |rs| ==> Room(g, rs[k]) <= d
    ensures GenRules(d', g, rs) == GenRules(d, g, rs) && Positions(d', g, rs, at) == Positions(d, g, rs, at)
    decreases rs, 2
  {
    hide Room, Gen;
    if rs != [] {
      GenSame(d, d', g, rs[0], false, NoTest, FullSet);
      RulesSame(d, d', g, rs[1..], at + |Gen(d, g, rs[0], false, NoTest, FullSet)| + 1);
    }
  }

  lemma {:induction false} GrammarSame(d: nat, d': nat, rs: seq<Tree>)
    requires d <= d' && forall k :: 0 <= k < |rs| ==> Room(rs, rs[k]) <= d
    ensures GrammarCode(d', rs) == GrammarCode(d, rs)
    decreases rs, 3
  {
    hide Room, GenRules, Positions, LinkFrom;
    RulesSame(d, d', rs, rs, 4);
  }
}
