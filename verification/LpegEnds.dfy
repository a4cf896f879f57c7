/**
 * On a pattern that the corrected checks accept, every analysis ends that code generation asks for.
 */
module LpegEnds {
  import opened LpegTree
  import opened LpegAnalysis
  import opened LpegLink
  import opened LpegCircle
  import opened LpegDepth
  import opened LpegAsked
  import opened LpegVerify
  import opened Growth

  /** A pattern, of a checked rule or not, whose calls lead to rules below rank `c`. */
  ghost predicate Lower(d: nat, h: nat, c: nat, g: seq<Tree>, t: Tree) {
    Formed(d, h, g, t) && forall k: nat :: Calls(t, k) ==> Used(g, k) && Rank(g, k) < c
  }

  predicate Formed(d: nat, h: nat, g: seq<Tree>, t: Tree) { WellFormed(d, g, t) && AllSure(d, t) && Nesting(t) <= h }

  // ------------------------------------------------------------------ what a positive answer means

  lemma {:induction false} TrueNullable(g: seq<Tree>, t: Tree, pred: Pred, n: nat, m: nat)
    requires CheckAux(g, t, pred, n) == Is(true)
    ensures Nullable(g, t, m)
    decreases n, t
  {
    match t
    case TSeq(p1, p2) =>
      TrueNullable(g, p1, pred, n, m);
      TrueNullable(g, p2, pred, n, m);
    case TChoice(p1, p2) =>
      TrueNullable(g, if CheckAux(g, p2, pred, n) == Is(true) then p2 else p1, pred, n, m);
    case TGrammar(rs) => TrueNullable(rs, rs[0], pred, n, m);
    case TCall(k) => if m > 0 { TrueNullable(g, g[k], pred, n - 1, m - 1); }
    case _ =>
  }

  lemma {:induction false} TrueChecked(d: nat, g: seq<Tree>, t: Tree, npassed: nat, nb: bool, pred: Pred, n: nat)
    requires SureRule(d, g, t, npassed, nb).Nb? && CheckAux(g, t, pred, n) == Is(true)
    ensures SureRule(d, g, t, npassed, nb).b
    decreases MAXRULES - npassed, t
  {
    match t
    case TBehind(k, p) => if k == 0 { SureKeepsNb(d, g, p, npassed); }
    case TNot(p) => SureKeepsNb(d, g, p, npassed);
    case TAnd(p) => SureKeepsNb(d, g, p, npassed);
    case TRep(p) => SureKeepsNb(d, g, p, npassed);
    case TCall(k) => TrueChecked(d, g, g[k], npassed + 1, nb, pred, n - 1);
    case TSeq(p1, p2) =>
      TrueChecked(d, g, p1, npassed, false, pred, n);
      TrueChecked(d, g, p2, npassed, nb, pred, n);
    case TChoice(p1, p2) =>
      var b := SureRule(d, g, p1, npassed, nb).b;
      if CheckAux(g, p2, pred, n) == Is(true) {
        TrueChecked(d, g, p2, npassed, b, pred, n);
      } else {
        TrueChecked(d, g, p1, npassed, nb, pred, n);
        SureKeepsNb(d, g, p2, npassed);
      }
    case TGrammar(_) => TrueNullable(g, t, pred, n, d);
    case _ =>
  }

  lemma {:induction false} TrueLeast(g: seq<Tree>, t: Tree, pred: Pred, n: nat, d: nat)
    requires CheckAux(g, t, pred, n) == Is(true)
    ensures LeastLen(g, t, d) == 0
    decreases n, t
  {
    match t
    case TSeq(p1, p2) =>
      TrueLeast(g, p1, pred, n, d);
      TrueLeast(g, p2, pred, n, d);
    case TChoice(p1, p2) => TrueLeast(g, if CheckAux(g, p2, pred, n) == Is(true) then p2 else p1, pred, n, d);
    case TGrammar(rs) => TrueLeast(rs, rs[0], pred, n, d);
    case TCall(k) => if d > 0 { TrueLeast(g, g[k], pred, n - 1, d - 1); }
    case _ =>
  }

  lemma Anywhere(d: nat, h: nat, c: nat, g: seq<Tree>, t: Tree, off: int)
    ensures Inside(d, h, c, g, t, off) ==> Lower(d, h, c + 1, g, t)
    ensures Beneath(d, h, c, g, t, off) ==> Lower(d, h, c + 1, g, t)
  {
    hide Rank, WellFormed, AllSure, Nesting, CheckLoops, LowCalls, BackCalls;
  }

  // ------------------------------------------------------------------ nullable and nofail

  /** In left position of a checked rule. */
  lemma {:induction false} CheckLeft(d: nat, h: nat, c: nat, g: seq<Tree>, t: Tree, npassed: nat, nb: bool, pred: Pred)
    returns (n: nat)
    requires Surroundings(d, h, g) && Lower(d, h, c, g, t)
    requires npassed <= MAXRULES && SureRule(d, g, t, npassed, nb).Nb?
    ensures CheckAux(g, t, pred, n).Is?
    decreases h, c, 0, MAXRULES - npassed, t
  {
    hide Surroundings, Rank;
    n := 0;
    match t
    case TAnd(p) => if pred.PEnofail? { n := CheckLeft(d, h, c, g, p, npassed, true, pred); }
    case TSeq(p1, p2) =>
      n := CheckLeft(d, h, c, g, p1, npassed, false, pred);
      if CheckAux(g, p1, pred, n) == Is(true) {
        TrueChecked(d, g, p1, npassed, false, pred, n);
        var n2 := CheckLeft(d, h, c, g, p2, npassed, nb, pred);
        CheckMore(g, p1, pred, n, Max(n, n2));
        CheckMore(g, p2, pred, n2, Max(n, n2));
        n := Max(n, n2);
      }
    case TChoice(p1, p2) =>
      var n1 := CheckLeft(d, h, c, g, p1, npassed, nb, pred);
      var n2 := CheckLeft(d, h, c, g, p2, npassed, SureRule(d, g, p1, npassed, nb).b, pred);
      n := Max(n1, n2);
      CheckMore(g, p1, pred, n1, n);
      CheckMore(g, p2, pred, n2, n);
    case TCall(k) =>
      RuleLower(d, h, g, k);
      n := CheckLeft(d, h, c, g, g[k], npassed + 1, nb, pred);
      n := n + 1;
    case TGrammar(rs) =>
      GrammarLower(d, h, g, t);
      n := CheckLeft(d, NestingAll(rs), Rank(rs, 0) + 1, rs, rs[0], 0, false, pred);
    case _ =>
  }

  lemma RuleLower(d: nat, h: nat, g: seq<Tree>, k: nat)
    requires Surroundings(d, h, g) && k < |g| && Used(g, k)
    ensures forall c: nat :: Rank(g, k) < c ==> Lower(d, h, c, g, g[k])
    ensures SureRule(d, g, g[k], 0, false).Nb? && Inside(d, h, Rank(g, k), g, g[k], 0)
  {
    hide Rank, WellFormed, AllSure, Nesting, CheckLoops, Surroundings, BackCalls;
    RuleInside(d, h, g, k);
  }

  lemma GrammarLower(d: nat, h: nat, g: seq<Tree>, t: Tree)
    requires t.TGrammar? && Formed(d, h, g, t)
    ensures var rs, h' := t.rules, NestingAll(t.rules);
            rs != [] && h' < h && Surroundings(d, h', rs) && Lower(d, h', Rank(rs, 0) + 1, rs, rs[0])
            && SureRule(d, rs, rs[0], 0, false).Nb? && Inside(d, h', Rank(rs, 0), rs, rs[0], 0)
  {
    hide Rank, Surroundings;
    GrammarInside(d, g, t.rules);
    RuleLower(d, NestingAll(t.rules), t.rules, 0);
  }

  /** Anywhere. */
  lemma {:induction false} CheckAny(d: nat, h: nat, c: nat, g: seq<Tree>, t: Tree, pred: Pred) returns (n: nat)
    requires Surroundings(d, h, g) && Lower(d, h, c, g, t)
    ensures CheckAux(g, t, pred, n).Is?
    decreases h, c, 1, 0, t
  {
    hide Surroundings, Rank;
    n := 0;
    match t
    case TAnd(p) => if pred.PEnofail? { n := CheckAny(d, h, c, g, p, pred); }
    case TSeq(p1, p2) =>
      var n1 := CheckAny(d, h, c, g, p1, pred);
      var n2 := CheckAny(d, h, c, g, p2, pred);
      n := Max(n1, n2);
      CheckMore(g, p1, pred, n1, n);
      CheckMore(g, p2, pred, n2, n);
    case TChoice(p1, p2) =>
      var n1 := CheckAny(d, h, c, g, p1, pred);
      var n2 := CheckAny(d, h, c, g, p2, pred);
      n := Max(n1, n2);
      CheckMore(g, p1, pred, n1, n);
      CheckMore(g, p2, pred, n2, n);
    case TCall(k) =>
      RuleLower(d, h, g, k);
      n := CheckLeft(d, h, c, g, g[k], 0, false, pred);
      n := n + 1;
    case TGrammar(rs) =>
      GrammarLower(d, h, g, t);
      n := CheckLeft(d, NestingAll(rs), Rank(rs, 0) + 1, rs, rs[0], 0, false, pred);
    case _ =>
  }

  // ------------------------------------------------------------------ getfirst

  lemma FirstSeq(g: seq<Tree>, p1: Tree, p2: Tree, n0: nat, n1: nat, n2: nat) returns (n: nat)
    requires CheckAux(g, p1, PEnullable, n0).Is? && FirstSet(g, p1, FullSet, n1).Is?
    requires CheckAux(g, p1, PEnullable, n0) == Is(true) ==> FirstSet(g, p2, FullSet, n2).Is?
    ensures FirstSet(g, TSeq(p1, p2), FullSet, n).Is?
  {
    n := Max(n0, Max(n1, n2));
    CheckMore(g, p1, PEnullable, n0, n);
    FirstMore(g, p1, FullSet, n1, n);
    if CheckAux(g, p1, PEnullable, n0) == Is(true) {
      FirstMore(g, p2, FullSet, n2, n);
      FirstEnds(g, p1, FullSet, FirstSet(g, p2, FullSet, n).v.cs, n);
    }
  }

  lemma FirstChoice(g: seq<Tree>, p1: Tree, p2: Tree, n1: nat, n2: nat) returns (n: nat)
    requires FirstSet(g, p1, FullSet, n1).Is? && FirstSet(g, p2, FullSet, n2).Is?
    ensures FirstSet(g, TChoice(p1, p2), FullSet, n).Is?
  {
    n := Max(n1, n2);
    FirstMore(g, p1, FullSet, n1, n);
    FirstMore(g, p2, FullSet, n2, n);
  }

  lemma {:induction false} FirstLeft(d: nat, h: nat, c: nat, g: seq<Tree>, t: Tree, off: int, npassed: nat, nb: bool) returns (n: nat)
    requires off <= 0 && Surroundings(d, h, g) && Inside(d, h, c, g, t, off)
    requires npassed <= MAXRULES && SureRule(d, g, t, npassed, nb).Nb?
    ensures FirstSet(g, t, FullSet, n).Is?
    decreases h, c, 1, MAXRULES - npassed, t
  {
    hide Surroundings, Rank;
    n := 0;
    match t
    case TRep(p) => n := FirstLeft(d, h, c, g, p, off, npassed, true);
    case TNot(p) => n := FirstLeft(d, h, c, g, p, off, npassed, true);
    case TAnd(p) => n := FirstLeft(d, h, c, g, p, off, npassed, true);
    case TBehind(k, p) =>
      if k == 0 {
        n := FirstLeft(d, h, c, g, p, off, npassed, true);
      } else {
        n := FirstBeneath(d, h, c, g, p, off - k);
      }
    case TSeq(p1, p2) =>
      Anywhere(d, h, c, g, p1, off);
      var n0 := CheckAny(d, h, c + 1, g, p1, PEnullable);
      var n1 := FirstLeft(d, h, c, g, p1, off, npassed, false);
      var n2 := 0;
      if CheckAux(g, p1, PEnullable, n0) == Is(true) {
        TrueChecked(d, g, p1, npassed, false, PEnullable, n0);
        TrueLeast(g, p1, PEnullable, n0, d);
        n2 := FirstLeft(d, h, c, g, p2, off, npassed, nb);
      }
      n := FirstSeq(g, p1, p2, n0, n1, n2);
    case TChoice(p1, p2) =>
      var n1 := FirstLeft(d, h, c, g, p1, off, npassed, nb);
      var n2 := FirstLeft(d, h, c, g, p2, off, npassed, SureRule(d, g, p1, npassed, nb).b);
      n := FirstChoice(g, p1, p2, n1, n2);
    case TCall(k) =>
      RuleLower(d, h, g, k);
      n := FirstLeft(d, h, Rank(g, k), g, g[k], 0, npassed + 1, nb);
      n := n + 1;
    case TGrammar(rs) =>
      GrammarLower(d, h, g, t);
      n := FirstLeft(d, NestingAll(rs), Rank(rs, 0), rs, rs[0], 0, 0, false);
    case _ =>
  }

  /** At the start of a rule or before it, in a look-behind. */
  lemma {:induction false} FirstBeneath(d: nat, h: nat, c: nat, g: seq<Tree>, t: Tree, off: int) returns (n: nat)
    requires off <= 0 && Surroundings(d, h, g) && Beneath(d, h, c, g, t, off)
    ensures FirstSet(g, t, FullSet, n).Is?
    decreases h, c, 0, 0, t
  {
    hide Surroundings, Rank;
    n := 0;
    match t
    case TRep(p) => n := FirstBeneath(d, h, c, g, p, off);
    case TNot(p) => n := FirstBeneath(d, h, c, g, p, off);
    case TAnd(p) => n := FirstBeneath(d, h, c, g, p, off);
    case TBehind(k, p) => n := FirstBeneath(d, h, c, g, p, off - k);
    case TSeq(p1, p2) =>
      Anywhere(d, h, c, g, p1, off);
      var n0 := CheckAny(d, h, c + 1, g, p1, PEnullable);
      var n1 := FirstBeneath(d, h, c, g, p1, off);
      var n2 := 0;
      if CheckAux(g, p1, PEnullable, n0) == Is(true) {
        TrueLeast(g, p1, PEnullable, n0, d);
        n2 := FirstBeneath(d, h, c, g, p2, off);
      }
      n := FirstSeq(g, p1, p2, n0, n1, n2);
    case TChoice(p1, p2) =>
      var n1 := FirstBeneath(d, h, c, g, p1, off);
      var n2 := FirstBeneath(d, h, c, g, p2, off);
      n := FirstChoice(g, p1, p2, n1, n2);
    case TCall(k) =>
      RuleLower(d, h, g, k);
      n := FirstLeft(d, h, Rank(g, k), g, g[k], 0, 0, false);
      n := n + 1;
    case TGrammar(rs) =>
      GrammarLower(d, h, g, t);
      n := FirstLeft(d, NestingAll(rs), Rank(rs, 0), rs, rs[0], 0, 0, false);
    case _ =>
  }

  lemma {:induction false} FirstAny(d: nat, h: nat, c: nat, g: seq<Tree>, t: Tree) returns (n: nat)
    requires Surroundings(d, h, g) && Lower(d, h, c, g, t)
    ensures FirstSet(g, t, FullSet, n).Is?
    decreases h, c, 2, 0, t
  {
    hide Surroundings, Rank;
    n := 0;
    match t
    case TRep(p) => n := FirstAny(d, h, c, g, p);
    case TNot(p) => n := FirstAny(d, h, c, g, p);
    case TAnd(p) => n := FirstAny(d, h, c, g, p);
    case TBehind(_, p) => n := FirstAny(d, h, c, g, p);
    case TSeq(p1, p2) =>
      var n0 := CheckAny(d, h, c, g, p1, PEnullable);
      var n1 := FirstAny(d, h, c, g, p1);
      var n2 := FirstAny(d, h, c, g, p2);
      n := FirstSeq(g, p1, p2, n0, n1, n2);
    case TChoice(p1, p2) =>
      var n1 := FirstAny(d, h, c, g, p1);
      var n2 := FirstAny(d, h, c, g, p2);
      n := FirstChoice(g, p1, p2, n1, n2);
    case TCall(k) =>
      RuleLower(d, h, g, k);
      n := FirstLeft(d, h, Rank(g, k), g, g[k], 0, 0, false);
      n := n + 1;
    case TGrammar(rs) =>
      GrammarLower(d, h, g, t);
      n := FirstLeft(d, NestingAll(rs), Rank(rs, 0), rs, rs[0], 0, 0, false);
    case _ =>
  }

  // ------------------------------------------------------------------ headfail

  lemma HeadSeq(g: seq<Tree>, p1: Tree, p2: Tree, n1: nat, n2: nat) returns (n: nat)
    requires HeadTest(g, p1, n1).Is? && CheckAux(g, p2, PEnofail, n2).Is?
    ensures HeadTest(g, TSeq(p1, p2), n).Is?
  {
    n := Max(n1, n2);
    HeadMore(g, p1, n1, n);
    CheckMore(g, p2, PEnofail, n2, n);
  }

  lemma HeadChoice(g: seq<Tree>, p1: Tree, p2: Tree, n1: nat, n2: nat) returns (n: nat)
    requires HeadTest(g, p1, n1).Is? && HeadTest(g, p2, n2).Is?
    ensures HeadTest(g, TChoice(p1, p2), n).Is?
  {
    n := Max(n1, n2);
    HeadMore(g, p1, n1, n);
    HeadMore(g, p2, n2, n);
  }

  lemma {:induction false} HeadLeft(d: nat, h: nat, c: nat, g: seq<Tree>, t: Tree, npassed: nat, nb: bool) returns (n: nat)
    requires Surroundings(d, h, g) && Lower(d, h, c, g, t)
    requires npassed <= MAXRULES && SureRule(d, g, t, npassed, nb).Nb?
    ensures HeadTest(g, t, n).Is?
    decreases h, c, 0, MAXRULES - npassed, t
  {
    hide Surroundings, Rank;
    n := 0;
    match t
    case TAnd(p) => n := HeadLeft(d, h, c, g, p, npassed, true);
    case TSeq(p1, p2) =>
      var n1 := HeadLeft(d, h, c, g, p1, npassed, false);
      var n2 := CheckAny(d, h, c, g, p2, PEnofail);
      n := HeadSeq(g, p1, p2, n1, n2);
    case TChoice(p1, p2) =>
      var n1 := HeadLeft(d, h, c, g, p1, npassed, nb);
      var n2 := HeadLeft(d, h, c, g, p2, npassed, SureRule(d, g, p1, npassed, nb).b);
      n := HeadChoice(g, p1, p2, n1, n2);
    case TCall(k) =>
      RuleLower(d, h, g, k);
      n := HeadLeft(d, h, c, g, g[k], npassed + 1, nb);
      n := n + 1;
    case TGrammar(rs) =>
      GrammarLower(d, h, g, t);
      n := HeadLeft(d, NestingAll(rs), Rank(rs, 0) + 1, rs, rs[0], 0, false);
    case _ =>
  }

  lemma {:induction false} HeadAny(d: nat, h: nat, c: nat, g: seq<Tree>, t: Tree) returns (n: nat)
    requires Surroundings(d, h, g) && Lower(d, h, c, g, t)
    ensures HeadTest(g, t, n).Is?
    decreases h, c, 1, 0, t
  {
    hide Surroundings, Rank;
    n := 0;
    match t
    case TAnd(p) => n := HeadAny(d, h, c, g, p);
    case TSeq(p1, p2) =>
      var n1 := HeadAny(d, h, c, g, p1);
      var n2 := CheckAny(d, h, c, g, p2, PEnofail);
      n := HeadSeq(g, p1, p2, n1, n2);
    case TChoice(p1, p2) =>
      var n1 := HeadAny(d, h, c, g, p1);
      var n2 := HeadAny(d, h, c, g, p2);
      n := HeadChoice(g, p1, p2, n1, n2);
    case TCall(k) =>
      RuleLower(d, h, g, k);
      n := HeadLeft(d, h, c, g, g[k], 0, false);
      n := n + 1;
    case TGrammar(rs) =>
      GrammarLower(d, h, g, t);
      n := HeadLeft(d, NestingAll(rs), Rank(rs, 0) + 1, rs, rs[0], 0, false);
    case _ =>
  }

  // ------------------------------------------------------------------ all that is asked

  lemma BothEnd(d: nat, h: nat, c: nat, g: seq<Tree>, t: Tree, n: nat)
    requires Surroundings(d, h, g) && Lower(d, h, c, g, t) && Room(g, t) <= n
    ensures Tested(n, g, t)
  {
    hide Room, Surroundings, Lower, Rank;
    var n1 := FirstAny(d, h, c, g, t);
    var n2 := HeadAny(d, h, c, g, t);
    FirstFinal(g, t, FullSet, n, n1);
    HeadFinal(g, t, n, n2);
  }

  lemma {:induction false} SureAnalysed(d: nat, h: nat, c: nat, g: seq<Tree>, t: Tree, n: nat)
    requires Surroundings(d, h, g) && Lower(d, h, c, g, t) && Room(g, t) <= n
    ensures Analysed(n, g, t)
    decreases h, t
  {
    hide Room, Surroundings, Rank, Tested, HasFirst, HeadFail, GetFirst;
    PartsRoom(g, t);
    match t
    case TRep(p) =>
      BothEnd(d, h, c, g, p, n);
      SureAnalysed(d, h, c, g, p, n);
    case TNot(p) =>
      BothEnd(d, h, c, g, p, n);
      SureAnalysed(d, h, c, g, p, n);
    case TAnd(p) => SureAnalysed(d, h, c, g, p, n);
    case TBehind(_, p) => SureAnalysed(d, h, c, g, p, n);
    case TSeq(p1, p2) =>
      BothEnd(d, h, c, g, p2, n);
      TestedFirst(n, g, p2);
      SureAnalysed(d, h, c, g, p1, n);
      SureAnalysed(d, h, c, g, p2, n);
    case TChoice(p1, p2) =>
      BothEnd(d, h, c, g, p1, n);
      BothEnd(d, h, c, g, p2, n);
      TestedFirst(n, g, p2);
      SureAnalysed(d, h, c, g, p1, n);
      SureAnalysed(d, h, c, g, p2, n);
    case TGrammar(rs) =>
      GrammarInside(d, g, rs);
      forall k | 0 <= k < |rs| ensures Analysed(n, rs, rs[k]) { RuleAnalysed(d, rs, k, n); }
    case _ =>
  }

  lemma TestedFirst(n: nat, g: seq<Tree>, t: Tree)
    requires Tested(n, g, t)
    ensures HasFirst(n, g, t)
  {}

  lemma RankBound(g: seq<Tree>, k: nat)
    requires k < |g|
    ensures Rank(g, k) <= |g|
  {
    ReachedBelow(g, k, |g|);
    Smaller(Reached(g, k), |g|);
  }

  /** Code is generated for every rule, also for one that is not used and was not checked. */
  lemma {:induction false} RuleAnalysed(d: nat, rs: seq<Tree>, k: nat, n: nat)
    requires k < |rs| && Surroundings(d, NestingAll(rs), rs) && Room(rs, rs[k]) <= n
    ensures Analysed(n, rs, rs[k])
    decreases NestingAll(rs), rs
  {
    hide Room, Rank, Analysed, SureGrammar;
    forall j: nat | Calls(rs[k], j) ensures Used(rs, j) && Rank(rs, j) < |rs| + 1 {
      CallsBelow(d, rs, rs[k], j);
      CalledIsUsed(rs, k, j);
      RankBound(rs, j);
    }
    SureAnalysed(d, NestingAll(rs), |rs| + 1, rs, rs[k], n);
  }

  /** Generating the code of an accepted pattern comes back. */
  lemma AcceptedAnalysed(d: nat, t: Tree)
    requires Accepted(d, t)
    ensures Analysed(Enough(t), [], t)
  {
    forall k: nat ensures !Calls(t, k) { if Calls(t, k) { CallsBelow(d, [], t, k); } }
    SureAnalysed(d, Nesting(t), 0, [], t, Enough(t));
  }
}
