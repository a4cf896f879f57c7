/**
 * Grammars on which the checks of the source are wrong: some pass them although matching, or already
 * compiling, never ends; and ordinary ones that the corrected checks accept.
 */
module LpegLimits {
  import opened LpegTree
  import opened LpegAnalysis
  import opened LpegVm
  import opened LpegCodegen
  import opened LpegLink
  import opened LpegHead
  import opened LpegCircle
  import opened LpegSettle
  import opened LpegVerify
  import opened LpegDepth
  import opened LpegAsked

  /** What the source looks at before it uses a grammar. */
  predicate SourceAccepts(d: nat, g: seq<Tree>) { VerifyGrammar(d, g) && WellFormed(d, [], TGrammar(g)) }

  // ------------------------------------------------------------------ matching that never ends

  /** `A <- (grammar { 'x' })* A`: the repetition may match nothing, but the sub-grammar in it makes
      the check forget so. */
  const LostNb: seq<Tree> := [TSeq(TRep(TGrammar([TChar(120)])), TCall(0))]

  lemma {:induction false} LostNbDiverges(f: nat, s: seq<byte>, i: nat)
    requires i <= |s|
    ensures Eval(f, LostNb, LostNb[0], s, i) == Out
    decreases f
  {
    var p := LostNb[0].p1;
    RepNeverFails(f, LostNb, p, s, i);
    var r := Eval(f, LostNb, p, s, i);
    if r.Succ? && f > 0 { LostNbDiverges(f - 1, s, r.pos); }
  }

  lemma {:induction false} RepNeverFails(f: nat, g: seq<Tree>, t: Tree, s: seq<byte>, i: nat)
    requires t.TRep? && i <= |s|
    ensures Eval(f, g, t, s, i) != Fail
    decreases f
  {
    if f > 0 {
      var r := Eval(f, g, t.p, s, i);
      if r.Succ? { RepNeverFails(f - 1, g, t, s, r.pos); }
    }
  }

  /** `A <- B(-A) 'x'`: the check takes look-behinds to have no calls. */
  const BehindCall: seq<Tree> := [TSeq(TBehind(0, TNot(TCall(0))), TChar(120))]

  lemma {:induction false} BehindCallDiverges(f: nat, s: seq<byte>, i: nat)
    requires i <= |s|
    ensures Eval(f, BehindCall, BehindCall[0], s, i) == Out
    decreases f
  {
    if f > 0 { BehindCallDiverges(f - 1, s, i); }
    var call := TCall(0);
    assert Eval(f, BehindCall, call, s, i) == Out;
    assert Eval(f, BehindCall, TNot(call), s, i) == Out;
    assert Eval(f, BehindCall, TBehind(0, TNot(call)), s, i) == Out;
  }

  /** `A <- 'x' B(-A 'x')`: the look-behind steps back over the character that was consumed. */
  const BackCall: seq<Tree> := [TSeq(TChar(120), TBehind(1, TSeq(TNot(TCall(0)), TChar(120))))]

  lemma {:induction false} BackCallDiverges(f: nat, s: seq<byte>, i: nat)
    requires i < |s| && s[i] == 120
    ensures Eval(f, BackCall, BackCall[0], s, i) == Out
    decreases f
  {
    if f > 0 { BackCallDiverges(f - 1, s, i); }
    var call := TCall(0);
    var body := TSeq(TNot(call), TChar(120));
    assert Eval(f, BackCall, TChar(120), s, i) == Succ(i + 1);
    assert Eval(f, BackCall, call, s, i) == Out;
    assert Eval(f, BackCall, TNot(call), s, i) == Out;
    assert Eval(f, BackCall, body, s, i) == Out;
    assert Eval(f, BackCall, TBehind(1, body), s, i + 1) == Out;
  }

  lemma LostNbPasses(d: nat)
    ensures SourceAccepts(d, LostNb) && !SureGrammar(d, LostNb)
  {
    assert Used(LostNb, 0);
    assert !Nullable([TChar(120)], TChar(120), d);
    assert !Nullable(LostNb, TGrammar([TChar(120)]), d);
    LeftRecursive(d, LostNb, 0);
  }

  /** A grammar of one rule that calls itself in left position. */
  lemma {:induction false} LeftRecursive(d: nat, g: seq<Tree>, npassed: nat)
    requires g == LostNb && npassed <= MAXRULES
    ensures SureRule(d, g, g[0], npassed, false) == Reject
    decreases MAXRULES - npassed
  {
    assert SureRule(d, g, g[0].p1, npassed, false) == Nb(true);
    if npassed < MAXRULES { LeftRecursive(d, g, npassed + 1); }
  }

  lemma {:induction false} BehindCallLeft(d: nat, npassed: nat, nb: bool)
    requires npassed <= MAXRULES
    ensures SureRule(d, BehindCall, BehindCall[0], npassed, nb) == Reject
    decreases MAXRULES - npassed
  {
    if npassed < MAXRULES { BehindCallLeft(d, npassed + 1, true); }
    assert SureRule(d, BehindCall, TNot(TCall(0)), npassed, true) == Reject;
  }

  lemma BehindCallPasses(d: nat)
    ensures SourceAccepts(d, BehindCall) && !SureGrammar(d, BehindCall)
  {
    assert FixedLen(BehindCall, TNot(TCall(0)), d) == 0;
    assert WellFormed(d, BehindCall, BehindCall[0].p1);
    assert Used(BehindCall, 0);
    BehindCallLeft(d, 0, false);
  }

  lemma BackCallPasses(d: nat)
    ensures SourceAccepts(d, BackCall) && !SureGrammar(d, BackCall)
  {
    var body := TSeq(TNot(TCall(0)), TChar(120));
    assert FixedLen(BackCall, TNot(TCall(0)), d) == 0 && FixedLen(BackCall, TChar(120), d) == 1;
    assert FixedLen(BackCall, body, d) == 1;
    assert WellFormed(d, BackCall, TBehind(1, body));
    assert Used(BackCall, 0) && Calls(body, 0) && BackCalls(d, BackCall, BackCall[0], 0, 0);
    ReachesItself(BackCall, 0, 1);
    assert 0 in Reached(BackCall, 0);
    assert !Layered(d, BackCall);
  }

  /** Three grammars that pass the checks of the source and are refused by the corrected ones:
      matching them never ends, with the last one wherever an 'x' is next. */
  lemma ChecksMissThreeCases(d: nat)
    ensures SourceAccepts(d, LostNb) && SourceAccepts(d, BehindCall) && SourceAccepts(d, BackCall)
    ensures !SureGrammar(d, LostNb) && !SureGrammar(d, BehindCall) && !SureGrammar(d, BackCall)
    ensures forall f: nat, s: seq<byte>, i: nat :: i <= |s| ==> Eval(f, LostNb, LostNb[0], s, i) == Out
    ensures forall f: nat, s: seq<byte>, i: nat :: i <= |s| ==> Eval(f, BehindCall, BehindCall[0], s, i) == Out
    ensures forall f: nat, s: seq<byte>, i: nat :: i < |s| && s[i] == 120 ==> Eval(f, BackCall, BackCall[0], s, i) == Out
  {
    hide Eval, SourceAccepts, SureGrammar;
    LostNbPasses(d);
    BehindCallPasses(d);
    BackCallPasses(d);
    forall f: nat, s: seq<byte>, i: nat | i <= |s|
      ensures Eval(f, LostNb, LostNb[0], s, i) == Out && Eval(f, BehindCall, BehindCall[0], s, i) == Out
    {
      LostNbDiverges(f, s, i);
      BehindCallDiverges(f, s, i);
    }
    forall f: nat, s: seq<byte>, i: nat | i < |s| && s[i] == 120 ensures Eval(f, BackCall, BackCall[0], s, i) == Out {
      BackCallDiverges(f, s, i);
    }
  }

  // ------------------------------------------------------------------ compiling that never ends

  /** `A <- 'y' / (grammar { 'x' })* A` */
  const LeftAlt: seq<Tree> := [TChoice(TChar(121), TSeq(TRep(TGrammar([TChar(120)])), TCall(0)))]

  /** `A <- (grammar { fail })* A` */
  const LazyLoop: seq<Tree> := [TSeq(TRep(TGrammar([TFalse])), TCall(0))]

  lemma LeftAltPasses(d: nat)
    ensures SourceAccepts(d, LeftAlt) && JumpsEnd(d, [], TGrammar(LeftAlt))
  {
    var sub := TGrammar([TChar(120)]);
    assert !Nullable([TChar(120)], TChar(120), d) && !Nullable(LeftAlt, sub, d);
    var rep, first := TRep(sub), GetFirst(LeftAlt, TChar(121), FullSet, d);
    assert VerifyRule(d, LeftAlt, rep, 0, false) == Nb(false);
    assert first == First({121}, false);
    assert JumpsEnd(d, [TChar(120)], TChar(120)) && HeadOf(d, [TChar(120)], TChar(120)) == Stops;
    assert JumpsEnd(d, LeftAlt, sub);
  }

  lemma LazyLoopPasses(d: nat)
    ensures SourceAccepts(d, LazyLoop)
  {
    assert !Nullable([TFalse], TFalse, d) && !Nullable(LazyLoop, TGrammar([TFalse]), d);
  }

  /** `getfirst` of a rule that begins with a repetition and goes on with itself. */
  lemma {:induction false} FirstNever(g: seq<Tree>, rule: Tree, rep: Tree, n: nat)
    requires |g| == 1 && rep.TRep? && rule == TSeq(rep, TCall(0)) && (g[0] == rule || g[0] == TChoice(TChar(121), rule))
    ensures FirstSet(g, TCall(0), FullSet, n) == Deeper
    decreases n
  {
    if n > 0 {
      FirstNever(g, rule, rep, n - 1);
      assert FirstSet(g, rule, FullSet, n - 1) == Deeper;
    }
  }

  lemma {:induction false} BehindNever(n: nat)
    ensures FirstSet(BehindCall, TCall(0), FullSet, n) == Deeper
    decreases n
  {
    if n > 0 {
      BehindNever(n - 1);
      FirstEnds(BehindCall, TCall(0), FullSet, {120}, n - 1);
      var call, follow: set<byte> := TCall(0), {120};
      assert FirstSet(BehindCall, TNot(call), follow, n - 1) == Deeper;
      assert FirstSet(BehindCall, TBehind(0, TNot(call)), follow, n - 1) == Deeper;
      assert FirstSet(BehindCall, TChar(120), FullSet, n - 1) == Is(First(follow, false));
      assert FirstSet(BehindCall, BehindCall[0], FullSet, n - 1) == Deeper;
    }
  }

  /** Four grammars pass the checks of the source, and an analysis that code generation asks for calls
      itself without end, however much room there is on the stack; the first of them has no circle of
      jumping rules, and its match on "y" would end. */
  lemma AnalysesLoop(d: nat, n: nat)
    ensures SourceAccepts(d, LeftAlt) && SourceAccepts(d, LazyLoop) && SourceAccepts(d, LostNb) && SourceAccepts(d, BehindCall)
    ensures !Analysed(n, [], TGrammar(LeftAlt)) && !Analysed(n, [], TGrammar(LazyLoop))
    ensures !Analysed(n, [], TGrammar(LostNb)) && !Analysed(n, [], TGrammar(BehindCall))
    ensures JumpsEnd(d, [], TGrammar(LeftAlt)) && Eval(0, [], TGrammar(LeftAlt), [121], 0) == Succ(1)
  {
    hide SourceAccepts, FirstSet, JumpsEnd;
    LeftAltPasses(d);
    LazyLoopPasses(d);
    LostNbPasses(d);
    BehindCallPasses(d);
    FirstNever(LeftAlt, LeftAlt[0].p2, LeftAlt[0].p2.p1, n);
    FirstNever(LazyLoop, LazyLoop[0], LazyLoop[0].p1, n);
    FirstNever(LostNb, LostNb[0], LostNb[0].p1, n);
    BehindNever(n);
    NotAnalysed(n);
  }

  lemma NotAnalysed(n: nat)
    requires FirstSet(LeftAlt, TCall(0), FullSet, n) == Deeper && FirstSet(LazyLoop, TCall(0), FullSet, n) == Deeper
    requires FirstSet(LostNb, TCall(0), FullSet, n) == Deeper && FirstSet(BehindCall, TCall(0), FullSet, n) == Deeper
    ensures !Analysed(n, [], TGrammar(LeftAlt)) && !Analysed(n, [], TGrammar(LazyLoop))
    ensures !Analysed(n, [], TGrammar(LostNb)) && !Analysed(n, [], TGrammar(BehindCall))
  {
    hide FirstSet;
    assert !Analysed(n, LeftAlt, LeftAlt[0].p2);
    assert !Analysed(n, LeftAlt, LeftAlt[0]);
    assert !Analysed(n, LazyLoop, LazyLoop[0]);
    assert !Analysed(n, LostNb, LostNb[0]);
    assert !Analysed(n, BehindCall, TNot(TCall(0)));
    assert !Analysed(n, BehindCall, TBehind(0, TNot(TCall(0))));
    assert !Analysed(n, BehindCall, BehindCall[0]);
  }

  /** `A <- B(#A)`: the code of the rule is nothing but the call of itself. */
  const BareCall: seq<Tree> := [TBehind(0, TAnd(TCall(0)))]

  /** `A <- -(grammar { fail }) A`: a negation that is always true compiles to a jump over its body. */
  const BareNot: seq<Tree> := [TSeq(TNot(TGrammar([TFalse])), TCall(0))]

  lemma {:induction false} SelfJumps(d: nat, g: seq<Tree>, n: nat)
    requires g != [] && HeadOf(d, g, g[0]) == ToRule(0, true)
    ensures !Ends(d, g, 0, n)
    decreases n
  {
    if n > 0 { SelfJumps(d, g, n - 1); }
  }

  lemma BareCallPasses(d: nat)
    requires d > 0
    ensures SourceAccepts(d, BareCall) && HeadOf(d, BareCall, BareCall[0]) == ToRule(0, true)
    ensures Analysed(d, [], TGrammar(BareCall))
  {
    assert FixedLen(BareCall, BareCall[0], d - 1) == 0;
    assert FixedLen(BareCall, TCall(0), d) == 0 && FixedLen(BareCall, TAnd(TCall(0)), d) == 0;
    assert HeadOf(d, BareCall, TAnd(TCall(0))) == ToRule(0, true);
    assert Analysed(d, BareCall, TAnd(TCall(0)));
    assert Analysed(d, BareCall, BareCall[0]);
  }

  lemma BareNotPasses(d: nat)
    ensures SourceAccepts(d, BareNot) && HeadOf(d, BareNot, BareNot[0]) == ToRule(0, true)
    ensures Analysed(d, [], TGrammar(BareNot))
  {
    var sub := TGrammar([TFalse]);
    assert !Nullable([TFalse], TFalse, d) && !Nullable(BareNot, sub, d);
    assert FirstSet([TFalse], TFalse, FullSet, d) == Is(First({}, false));
    assert FirstSet(BareNot, sub, FullSet, d) == Is(First({}, false)) && HeadTest(BareNot, sub, d) == Is(true);
    assert NeverMatches(d, BareNot, sub);
    assert HeadOf(d, BareNot, TNot(sub)) == Through;
    assert Analysed(d, BareNot, TNot(sub));
    assert Analysed(d, BareNot, BareNot[0]);
  }

  /** Two grammars pass the checks of the source, their code is generated, and it has a jump to itself:
      the search for its final target never comes back. */
  lemma CompilerLoops(d: nat)
    requires d > 0
    ensures SourceAccepts(d, BareCall) && SourceAccepts(d, BareNot)
    ensures Analysed(d, [], TGrammar(BareCall)) && Analysed(d, [], TGrammar(BareNot))
    ensures Endless(GrammarCode(d, BareCall)) && Endless(GrammarCode(d, BareNot))
  {
    hide HeadOf, SourceAccepts, GrammarCode, Endless, Ends, Analysed;
    BareCallPasses(d);
    BareNotPasses(d);
    OneRule(d, BareCall);
    OneRule(d, BareNot);
  }

  lemma OneRule(d: nat, g: seq<Tree>)
    requires |g| == 1 && SourceAccepts(d, g) && HeadOf(d, g, g[0]) == ToRule(0, true)
    ensures Endless(GrammarCode(d, g))
  {
    hide HeadOf, GrammarCode, Endless, Ends;
    SelfJumps(d, g, 1);
    CircleEndless(d, g);
  }

  // ------------------------------------------------------------------ ordinary grammars

  /** `A <- (grammar { 'x' })* 'y'`. */
  const Spaced: Tree := TGrammar([TSeq(TRep(TGrammar([TChar(120)])), TChar(121))])

  /** `A <- 'x' B(-C 'x') ; C <- 'y' C / 'z'`: the look-behind calls a recursive rule that does not
      lead back to it. */
  const LookBack: Tree :=
    TGrammar([TSeq(TChar(120), TBehind(1, TSeq(TNot(TCall(1)), TChar(120)))),
              TChoice(TSeq(TChar(121), TCall(1)), TChar(122))])

  lemma SpacedAccepted(d: nat)
    ensures Accepted(d, Spaced)
  {
    var sub := [TChar(120)];
    assert !Nullable(sub, TChar(120), d);
    assert AllSure(d, TGrammar(sub));
    var g := Spaced.rules;
    assert !Nullable(g, TGrammar(sub), d);
    assert SureRule(d, g, TRep(TGrammar(sub)), 0, false) == Nb(true);
    assert SureRule(d, g, g[0], 0, false) == Nb(false);
    assert AllSure(d, g[0]);
  }

  lemma LookBackForm(d: nat)
    ensures WellFormed(d, [], LookBack) && !CheckLoops(d, [], LookBack)
  {
    var g := LookBack.rules;
    assert FixedLen(g, TNot(TCall(1)), d) == 0 && FixedLen(g, TChar(120), d) == 1;
    assert WellFormed(d, g, g[0].p2);
    assert WellFormed(d, g, g[0]) && WellFormed(d, g, g[1]);
  }

  lemma LookBackReached()
    ensures 0 !in Reached(LookBack.rules, 1)
  {
    var g := LookBack.rules;
    assert !Calls(g[1], 0);
    assert 0 !in CalledBy(g, {1});
    assert CalledBy(g, {1}) <= {1};
    assert ReachedIn(g, 1, 0) == {1};
    assert ReachedIn(g, 1, 1) == {1};
    assert ReachedIn(g, 1, 2) == {1};
  }

  lemma LookBackLayered(d: nat)
    ensures Layered(d, LookBack.rules)
  {
    hide Reached;
    var g := LookBack.rules;
    LookBackReached();
    assert !BackCalls(d, g, g[0], 0, 0) && !BackCalls(d, g, g[1], 0, 0) && !BackCalls(d, g, g[1], 0, 1);
  }

  lemma LookBackRules(d: nat)
    ensures var g := LookBack.rules;
      && SureRule(d, g, g[0], 0, false).Nb? && SureRule(d, g, g[1], 0, false).Nb?
      && !CheckLoops(d, g, g[0]) && !CheckLoops(d, g, g[1])
      && AllSure(d, g[0]) && AllSure(d, g[1])
  {}

  lemma LookBackSure(d: nat)
    ensures AllSure(d, LookBack)
  {
    hide Layered, Used, SureRule, CheckLoops;
    LookBackLayered(d);
    LookBackRules(d);
  }

  lemma LookBackAccepted(d: nat)
    ensures Accepted(d, LookBack)
  {
    hide WellFormed, CheckLoops, AllSure;
    LookBackForm(d);
    LookBackSure(d);
  }

  /** `A <- 'x' 'y' B('y' -A)`: the look-behind calls its own rule, but two characters further on. */
  const Further: Tree :=
    TGrammar([TSeq(TChar(120), TSeq(TChar(121), TBehind(1, TSeq(TChar(121), TNot(TCall(0))))))])

  lemma FurtherForm(d: nat)
    ensures WellFormed(d, [], Further) && !CheckLoops(d, [], Further)
  {
    var g := Further.rules;
    var body := TSeq(TChar(121), TNot(TCall(0)));
    assert FixedLen(g, TNot(TCall(0)), d) == 0 && FixedLen(g, TChar(121), d) == 1;
    assert WellFormed(d, g, TBehind(1, body));
    assert WellFormed(d, g, TSeq(TChar(121), TBehind(1, body)));
    assert WellFormed(d, g, g[0]);
  }

  lemma FurtherSure(d: nat)
    ensures AllSure(d, Further)
  {
    var g := Further.rules;
    var body := TSeq(TChar(121), TNot(TCall(0)));
    assert LeastLen(g, TChar(120), d) == 1 && LeastLen(g, TChar(121), d) == 1;
    assert !LowCalls(d, g, TNot(TCall(0)), 2, 0);
    assert !LowCalls(d, g, body, 1, 0);
    assert !BackCalls(d, g, TBehind(1, body), 2, 0);
    assert !BackCalls(d, g, TSeq(TChar(121), TBehind(1, body)), 1, 0);
    assert !BackCalls(d, g, g[0], 0, 0);
    assert SureRule(d, g, g[0], 0, false) == Nb(false);
    assert !CheckLoops(d, g, g[0]) && AllSure(d, g[0]);
  }

  /** `Exp <- Term ('+' Term)* ; Term <- Factor ('*' Factor)* ; Factor <- Number / '(' Exp ')' ;
      Number <- [01]`: four rules in a row of left calls. */
  const Arithmetic: seq<Tree> :=
    [TSeq(TCall(1), TRep(TSeq(TChar(43), TCall(1)))),
     TSeq(TCall(2), TRep(TSeq(TChar(42), TCall(2)))),
     TChoice(TCall(3), TSeq(TChar(40), TSeq(TCall(0), TChar(41)))),
     TSet({48, 49})]

  lemma ArithmeticRule(d: nat, k: nat)
    requires k <= 3
    ensures VerifyRule(d, Arithmetic, Arithmetic[k], 0, false) == Nb(false)
    ensures SureRule(d, Arithmetic, Arithmetic[k], 0, false) == Nb(false)
  {
  }

  lemma ArithmeticForm(d: nat, k: nat)
    requires k <= 3
    ensures !CheckLoops(d, Arithmetic, Arithmetic[k]) && WellFormed(d, Arithmetic, Arithmetic[k]) && AllSure(d, Arithmetic[k])
    ensures forall j: nat :: !BackCalls(d, Arithmetic, Arithmetic[k], 0, j)
  {
    hide Nullable;
    var g := Arithmetic;
    MustConsume(d, g, 43, TCall(1));
    MustConsume(d, g, 42, TCall(2));
    var round := TSeq(TCall(0), TChar(41));
    assert !CheckLoops(d, g, round) && WellFormed(d, g, round) && AllSure(d, round);
    assert forall j: nat :: !BackCalls(d, g, round, 1, j);
  }

  lemma MustConsume(d: nat, g: seq<Tree>, c: byte, t: Tree)
    ensures !Nullable(g, TSeq(TChar(c), t), d)
  {
    assert CheckAux(g, TChar(c), PEnullable, d) == Is(false);
  }

  /** An ordinary grammar passes both checks. */
  lemma ArithmeticAccepted(d: nat)
    ensures VerifyGrammar(d, Arithmetic) && Accepted(d, TGrammar(Arithmetic))
  {
    hide VerifyRule, SureRule, CheckLoops, WellFormed, AllSure, BackCalls, Used, Reached;
    forall k: nat | k < 4
      ensures VerifyRule(d, Arithmetic, Arithmetic[k], 0, false).Nb? && SureRule(d, Arithmetic, Arithmetic[k], 0, false).Nb?
        && !CheckLoops(d, Arithmetic, Arithmetic[k]) && WellFormed(d, Arithmetic, Arithmetic[k]) && AllSure(d, Arithmetic[k])
        && (forall j: nat :: !BackCalls(d, Arithmetic, Arithmetic[k], 0, j))
    {
      ArithmeticRule(d, k);
      ArithmeticForm(d, k);
    }
    assert SureGrammar(d, Arithmetic);
    WholeAccepted(d, Arithmetic);
  }

  lemma WholeAccepted(d: nat, g: seq<Tree>)
    requires g != [] && SureGrammar(d, g) && forall k :: 0 <= k < |g| ==> WellFormed(d, g, g[k]) && AllSure(d, g[k])
    ensures Accepted(d, TGrammar(g))
  {
  }

  /** `A <- 'x' ; B <- ''*`: the loop is empty, but the rule is not used. */
  const Unused: seq<Tree> := [TChar(120), TRep(TTrue)]

  /** Rules that are not used are not checked. */
  lemma UnusedIgnored(d: nat)
    ensures !Used(Unused, 1) && CheckLoops(d, Unused, Unused[1])
    ensures VerifyGrammar(d, Unused) && SureGrammar(d, Unused)
  {
    assert !Calls(Unused[0], 1) && !Calls(Unused[1], 1);
    assert !CheckLoops(d, Unused, Unused[0]);
    assert forall j: nat :: !BackCalls(d, Unused, Unused[0], 0, j) && !BackCalls(d, Unused, Unused[1], 0, j);
  }

  /** The corrected checks accept a sub-grammar under a repetition, and a look-behind whose calls do
      not lead back to it, or only from further on than where the rule was entered. */
  lemma OrdinaryAccepted(d: nat)
    ensures Accepted(d, Spaced) && Accepted(d, LookBack) && Accepted(d, Further) && Accepted(d, TGrammar(Arithmetic))
  {
    hide WellFormed, CheckLoops, AllSure;
    SpacedAccepted(d);
    LookBackAccepted(d);
    FurtherForm(d);
    FurtherSure(d);
    ArithmeticAccepted(d);
  }
}
