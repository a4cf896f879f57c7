/**
 * The checks a grammar passes before it may be used, and what they buy: matching terminates.
 */
module LpegVerify {
  import opened LpegTree
  import opened LpegAnalysis
  import opened LpegLink
  import opened LpegHead
  import opened LpegCircle
  import opened Growth

  const MAXRULES: nat := 250

  datatype Verdict = Reject | Nb(b: bool)

  /** Left-recursion check; `npassed` counts the rules entered so far. The answer says whether the
      pattern can match the empty string, with `nb` as an accumulator. */
  function VerifyRule(d: nat, g: seq<Tree>, t: Tree, npassed: nat, nb: bool): Verdict
    decreases MAXRULES - npassed, t
  {
    match t
    case TTrue => Nb(true)
    case TBehind(_, _) => Nb(true)
    case TNot(p) => VerifyRule(d, g, p, npassed, true)
    case TAnd(p) => VerifyRule(d, g, p, npassed, true)
    case TRep(p) => VerifyRule(d, g, p, npassed, true)
    case TCall(k) =>
      if npassed >= MAXRULES || k >= |g| then Reject else VerifyRule(d, g, g[k], npassed + 1, nb)
    case TSeq(p1, p2) =>
      (match VerifyRule(d, g, p1, npassed, false)
       case Reject => Reject
       case Nb(b) => if !b then Nb(nb) else VerifyRule(d, g, p2, npassed, nb))
    case TChoice(p1, p2) =>
      (match VerifyRule(d, g, p1, npassed, nb)
       case Reject => Reject
       case Nb(b) => VerifyRule(d, g, p2, npassed, b))
    case TGrammar(_) => Nb(Nullable(g, t, d))
    case _ => Nb(nb)
  }

  /** The check as it has to be: a sub-grammar keeps the accumulator, and a look-behind that steps
      back by nothing is in left position too. */
  function SureRule(d: nat, g: seq<Tree>, t: Tree, npassed: nat, nb: bool): Verdict
    decreases MAXRULES - npassed, t
  {
    match t
    case TTrue => Nb(true)
    case TBehind(n, p) => if n == 0 then SureRule(d, g, p, npassed, true) else Nb(true)
    case TNot(p) => SureRule(d, g, p, npassed, true)
    case TAnd(p) => SureRule(d, g, p, npassed, true)
    case TRep(p) => SureRule(d, g, p, npassed, true)
    case TCall(k) =>
      if npassed >= MAXRULES || k >= |g| then Reject else SureRule(d, g, g[k], npassed + 1, nb)
    case TSeq(p1, p2) =>
      (match SureRule(d, g, p1, npassed, false)
       case Reject => Reject
       case Nb(b) => if !b then Nb(nb) else SureRule(d, g, p2, npassed, nb))
    case TChoice(p1, p2) =>
      (match SureRule(d, g, p1, npassed, nb)
       case Reject => Reject
       case Nb(b) => SureRule(d, g, p2, npassed, b))
    case TGrammar(_) => Nb(nb || Nullable(g, t, d))
    case _ => Nb(nb)
  }

  /** Is there a repetition whose body may match the empty string? Sub-grammars were checked before. */
  predicate CheckLoops(d: nat, g: seq<Tree>, t: Tree)
    decreases t
  {
    match t
    case TRep(p) => Nullable(g, p, d) || CheckLoops(d, g, p)
    case TNot(p) => CheckLoops(d, g, p)
    case TAnd(p) => CheckLoops(d, g, p)
    case TBehind(_, p) => CheckLoops(d, g, p)
    case TSeq(p1, p2) => CheckLoops(d, g, p1) || CheckLoops(d, g, p2)
    case TChoice(p1, p2) => CheckLoops(d, g, p1) || CheckLoops(d, g, p2)
    case _ => false
  }

  predicate VerifyGrammar(d: nat, g: seq<Tree>) {
    forall k: nat :: k < |g| && Used(g, k) ==> VerifyRule(d, g, g[k], 0, false).Nb? && !CheckLoops(d, g, g[k])
  }

  /** A number of characters that every match consumes at least. */
  function LeastLen(g: seq<Tree>, t: Tree, d: nat): nat
    decreases d, t
  {
    match t
    case TChar(_) => 1
    case TSet(_) => 1
    case TAny => 1
    case TSeq(p1, p2) => LeastLen(g, p1, d) + LeastLen(g, p2, d)
    case TChoice(p1, p2) =>
      var n1, n2 := LeastLen(g, p1, d), LeastLen(g, p2, d);
      if n1 < n2 then n1 else n2
    case TGrammar(rs) => if rs == [] then 0 else LeastLen(rs, rs[0], d)
    case TCall(k) => if d == 0 || k >= |g| then 0 else LeastLen(g, g[k], d - 1)
    case _ => 0
  }

  /** May the pattern, which stands at least `off` characters behind the place where its rule was
      entered, call rule `k` at that place or before it? */
  predicate LowCalls(d: nat, g: seq<Tree>, t: Tree, off: int, k: nat)
    decreases t
  {
    match t
    case TCall(r) => r == k && off <= 0
    case TRep(p) => LowCalls(d, g, p, off, k)
    case TNot(p) => LowCalls(d, g, p, off, k)
    case TAnd(p) => LowCalls(d, g, p, off, k)
    case TBehind(n, p) => LowCalls(d, g, p, off - n, k)
    case TSeq(p1, p2) => LowCalls(d, g, p1, off, k) || LowCalls(d, g, p2, off + LeastLen(g, p1, d), k)
    case TChoice(p1, p2) => LowCalls(d, g, p1, off, k) || LowCalls(d, g, p2, off, k)
    case _ => false
  }

  /** May a look-behind that steps back do so? */
  predicate BackCalls(d: nat, g: seq<Tree>, t: Tree, off: int, k: nat)
    decreases t
  {
    match t
    case TRep(p) => BackCalls(d, g, p, off, k)
    case TNot(p) => BackCalls(d, g, p, off, k)
    case TAnd(p) => BackCalls(d, g, p, off, k)
    case TBehind(n, p) => if n == 0 then BackCalls(d, g, p, off, k) else LowCalls(d, g, p, off - n, k)
    case TSeq(p1, p2) => BackCalls(d, g, p1, off, k) || BackCalls(d, g, p2, off + LeastLen(g, p1, d), k)
    case TChoice(p1, p2) => BackCalls(d, g, p1, off, k) || BackCalls(d, g, p2, off, k)
    case _ => false
  }

  predicate CalledFrom(g: seq<Tree>, rules: set<nat>, j: nat) {
    exists r :: r in rules && r < |g| && Calls(g[r], j)
  }

  function CalledBy(g: seq<Tree>, rules: set<nat>): set<nat> {
    set j: nat | j < |g| && CalledFrom(g, rules, j)
  }

  /** The rules that rule `k` reaches in at most `n` calls, and in any number of calls. */
  function ReachedIn(g: seq<Tree>, k: nat, n: nat): set<nat>
    decreases n
  {
    if n == 0 then {k} else
    var before := ReachedIn(g, k, n - 1);
    before + CalledBy(g, before)
  }

  function Reached(g: seq<Tree>, k: nat): set<nat> { ReachedIn(g, k, |g|) }

  /** A look-behind that may step back to where its rule was entered, or further, calls no rule from
      there that leads back to this rule. */
  predicate Layered(d: nat, g: seq<Tree>) {
    forall r: nat, j: nat :: r < |g| && Used(g, r) && j < |g| && BackCalls(d, g, g[r], 0, j) ==> r !in Reached(g, j)
  }

  predicate SureGrammar(d: nat, g: seq<Tree>) {
    Layered(d, g)
    && forall k: nat :: k < |g| && Used(g, k) ==> SureRule(d, g, g[k], 0, false).Nb? && !CheckLoops(d, g, g[k])
  }

  /** Every grammar in the tree passed the corrected checks. */
  predicate AllSure(d: nat, t: Tree)
    decreases t
  {
    match t
    case TRep(p) => AllSure(d, p)
    case TNot(p) => AllSure(d, p)
    case TAnd(p) => AllSure(d, p)
    case TBehind(_, p) => AllSure(d, p)
    case TSeq(p1, p2) => AllSure(d, p1) && AllSure(d, p2)
    case TChoice(p1, p2) => AllSure(d, p1) && AllSure(d, p2)
    case TGrammar(rs) => SureGrammar(d, rs) && forall k :: 0 <= k < |rs| ==> AllSure(d, rs[k])
    case _ => true
  }

  /** A complete pattern that passed all checks. */
  predicate Accepted(d: nat, t: Tree) {
    WellFormed(d, [], t) && !CheckLoops(d, [], t) && AllSure(d, t)
  }

  // ------------------------------------------------------------------ the two checks compared

  /** The flag of the corrected check covers the accumulator. */
  lemma {:induction false} SureKeepsNb(d: nat, g: seq<Tree>, t: Tree, npassed: nat)
    requires SureRule(d, g, t, npassed, true).Nb?
    ensures SureRule(d, g, t, npassed, true).b
    decreases MAXRULES - npassed, t
  {
    match t
    case TBehind(n, p) => if n == 0 { SureKeepsNb(d, g, p, npassed); }
    case TNot(p) => SureKeepsNb(d, g, p, npassed);
    case TAnd(p) => SureKeepsNb(d, g, p, npassed);
    case TRep(p) => SureKeepsNb(d, g, p, npassed);
    case TCall(k) => SureKeepsNb(d, g, g[k], npassed + 1);
    case TSeq(p1, p2) => if SureRule(d, g, p1, npassed, false).b { SureKeepsNb(d, g, p2, npassed); }
    case TChoice(p1, p2) =>
      SureKeepsNb(d, g, p1, npassed);
      SureKeepsNb(d, g, p2, npassed);
    case _ =>
  }

  /** What the corrected check accepts, the check of the source accepts; it may find fewer rules
      that can match the empty string. */
  lemma {:induction false} SureIsVerified(d: nat, g: seq<Tree>, t: Tree, npassed: nat, nb: bool, nb': bool)
    requires SureRule(d, g, t, npassed, nb').Nb? && (nb ==> nb')
    ensures VerifyRule(d, g, t, npassed, nb).Nb?
    ensures VerifyRule(d, g, t, npassed, nb).b ==> SureRule(d, g, t, npassed, nb').b
    decreases MAXRULES - npassed, t
  {
    if nb' { SureKeepsNb(d, g, t, npassed); }
    match t
    case TBehind(n, p) => if n == 0 { SureKeepsNb(d, g, p, npassed); }
    case TNot(p) => SureIsVerified(d, g, p, npassed, true, true);
    case TAnd(p) => SureIsVerified(d, g, p, npassed, true, true);
    case TRep(p) => SureIsVerified(d, g, p, npassed, true, true);
    case TCall(k) => SureIsVerified(d, g, g[k], npassed + 1, nb, nb');
    case TSeq(p1, p2) =>
      SureIsVerified(d, g, p1, npassed, false, false);
      if SureRule(d, g, p1, npassed, false).b { SureIsVerified(d, g, p2, npassed, nb, nb'); }
    case TChoice(p1, p2) =>
      SureIsVerified(d, g, p1, npassed, nb, nb');
      SureIsVerified(d, g, p2, npassed, VerifyRule(d, g, p1, npassed, nb).b, SureRule(d, g, p1, npassed, nb').b);
    case _ =>
  }

  lemma SureGrammarIsVerified(d: nat, g: seq<Tree>)
    requires SureGrammar(d, g)
    ensures VerifyGrammar(d, g)
  {
    forall k: nat | k < |g| && Used(g, k) ensures VerifyRule(d, g, g[k], 0, false).Nb? && !CheckLoops(d, g, g[k]) {
      SureIsVerified(d, g, g[k], 0, false, false);
    }
  }

  /** The check of the source forgets the accumulator at a sub-grammar that must consume input, and
      passes by a left-recursive look-behind. This says that it does neither in this pattern. */
  predicate MissesNothing(d: nat, g: seq<Tree>, t: Tree, npassed: nat, nb: bool)
    decreases MAXRULES - npassed, t
  {
    match t
    case TNot(p) => MissesNothing(d, g, p, npassed, true)
    case TAnd(p) => MissesNothing(d, g, p, npassed, true)
    case TRep(p) => MissesNothing(d, g, p, npassed, true)
    case TCall(k) => npassed < MAXRULES && k < |g| ==> MissesNothing(d, g, g[k], npassed + 1, nb)
    case TSeq(p1, p2) =>
      MissesNothing(d, g, p1, npassed, false)
      && (VerifyRule(d, g, p1, npassed, false) == Nb(true) ==> MissesNothing(d, g, p2, npassed, nb))
    case TChoice(p1, p2) =>
      MissesNothing(d, g, p1, npassed, nb)
      && (var v := VerifyRule(d, g, p1, npassed, nb); v.Nb? ==> MissesNothing(d, g, p2, npassed, v.b))
    case TGrammar(_) => nb ==> Nullable(g, t, d)
    case TBehind(n, p) => n == 0 ==> SureRule(d, g, p, npassed, true).Nb?
    case _ => true
  }

  /** The two checks give the same verdict on the pattern and on everything the source's check looks
      at on its way through it. */
  predicate SameThroughout(d: nat, g: seq<Tree>, t: Tree, npassed: nat, nb: bool)
    decreases MAXRULES - npassed, t
  {
    SureRule(d, g, t, npassed, nb) == VerifyRule(d, g, t, npassed, nb) &&
    match t
    case TNot(p) => SameThroughout(d, g, p, npassed, true)
    case TAnd(p) => SameThroughout(d, g, p, npassed, true)
    case TRep(p) => SameThroughout(d, g, p, npassed, true)
    case TCall(k) => npassed < MAXRULES && k < |g| ==> SameThroughout(d, g, g[k], npassed + 1, nb)
    case TSeq(p1, p2) =>
      SameThroughout(d, g, p1, npassed, false)
      && (VerifyRule(d, g, p1, npassed, false) == Nb(true) ==> SameThroughout(d, g, p2, npassed, nb))
    case TChoice(p1, p2) =>
      SameThroughout(d, g, p1, npassed, nb)
      && (var v := VerifyRule(d, g, p1, npassed, nb); v.Nb? ==> SameThroughout(d, g, p2, npassed, v.b))
    case _ => true
  }

  /** The verdicts differ on the way exactly where one of these two things happens. */
  lemma {:induction false} VerdictsAgree(d: nat, g: seq<Tree>, t: Tree, npassed: nat, nb: bool)
    ensures MissesNothing(d, g, t, npassed, nb) <==> SameThroughout(d, g, t, npassed, nb)
    decreases MAXRULES - npassed, t
  {
    match t
    case TBehind(n, p) =>
      if n == 0 && SureRule(d, g, p, npassed, true).Nb? { SureKeepsNb(d, g, p, npassed); }
    case TNot(p) => VerdictsAgree(d, g, p, npassed, true);
    case TAnd(p) => VerdictsAgree(d, g, p, npassed, true);
    case TRep(p) => VerdictsAgree(d, g, p, npassed, true);
    case TCall(k) => if npassed < MAXRULES && k < |g| { VerdictsAgree(d, g, g[k], npassed + 1, nb); }
    case TSeq(p1, p2) =>
      VerdictsAgree(d, g, p1, npassed, false);
      if VerifyRule(d, g, p1, npassed, false) == Nb(true) { VerdictsAgree(d, g, p2, npassed, nb); }
    case TChoice(p1, p2) =>
      VerdictsAgree(d, g, p1, npassed, nb);
      var v := VerifyRule(d, g, p1, npassed, nb);
      if v.Nb? { VerdictsAgree(d, g, p2, npassed, v.b); }
    case _ =>
  }

  /** The pattern with its sub-grammars replaced by plain patterns that can match the empty string
      when they can, and its look-behinds of width 0 by the lookaheads they are. */
  function Plain(d: nat, g: seq<Tree>, t: Tree): Tree
    decreases t
  {
    match t
    case TRep(p) => TRep(Plain(d, g, p))
    case TNot(p) => TNot(Plain(d, g, p))
    case TAnd(p) => TAnd(Plain(d, g, p))
    case TBehind(n, p) => if n == 0 then TAnd(Plain(d, g, p)) else t
    case TSeq(p1, p2) => TSeq(Plain(d, g, p1), Plain(d, g, p2))
    case TChoice(p1, p2) => TChoice(Plain(d, g, p1), Plain(d, g, p2))
    case TGrammar(_) => if Nullable(g, t, d) then TTrue else TAny
    case _ => t
  }

  function PlainRules(d: nat, g: seq<Tree>): seq<Tree> {
    seq(|g|, k requires 0 <= k < |g| => Plain(d, g, g[k]))
  }

  /** The corrected check is the check of the source on plain patterns. */
  lemma {:induction false} SureIsPlain(d: nat, g: seq<Tree>, t: Tree, npassed: nat, nb: bool)
    ensures SureRule(d, g, t, npassed, nb) == VerifyRule(d, PlainRules(d, g), Plain(d, g, t), npassed, nb)
    decreases MAXRULES - npassed, t
  {
    match t
    case TBehind(n, p) => if n == 0 { SureIsPlain(d, g, p, npassed, true); }
    case TNot(p) => SureIsPlain(d, g, p, npassed, true);
    case TAnd(p) => SureIsPlain(d, g, p, npassed, true);
    case TRep(p) => SureIsPlain(d, g, p, npassed, true);
    case TCall(k) => if npassed < MAXRULES && k < |g| { SureIsPlain(d, g, g[k], npassed + 1, nb); }
    case TSeq(p1, p2) =>
      SureIsPlain(d, g, p1, npassed, false);
      SureIsPlain(d, g, p2, npassed, nb);
    case TChoice(p1, p2) =>
      SureIsPlain(d, g, p1, npassed, nb);
      var v := SureRule(d, g, p1, npassed, nb);
      if v.Nb? { SureIsPlain(d, g, p2, npassed, v.b); }
    case _ =>
  }

  // ------------------------------------------------------------------ layers of rules

  lemma {:induction false} ReachedBelow(g: seq<Tree>, k: nat, n: nat)
    requires k < |g|
    ensures forall j :: j in ReachedIn(g, k, n) ==> j < |g|
    decreases n
  {
    if n > 0 { ReachedBelow(g, k, n - 1); }
  }

  /** `Reached` is closed under calls. */
  lemma ReachedCalls(g: seq<Tree>, k: nat, r: nat, j: nat)
    requires k < |g| && r in Reached(g, k) && j < |g| && r < |g| && Calls(g[r], j)
    ensures j in Reached(g, k)
  {
    hide ReachedIn;
    ReachedStands(g, k);
    assert CalledFrom(g, ReachedIn(g, k, |g|), j);
    ReachedNext(g, k, |g|);
  }

  lemma ReachedNext(g: seq<Tree>, k: nat, n: nat)
    ensures ReachedIn(g, k, n + 1) == ReachedIn(g, k, n) + CalledBy(g, ReachedIn(g, k, n))
  {
    hide CalledBy;
  }

  lemma ReachedStands(g: seq<Tree>, k: nat)
    requires k < |g|
    ensures ReachedIn(g, k, |g| + 1) == ReachedIn(g, k, |g|)
  {
    hide ReachedIn, CalledBy;
    var e := (n: nat) => ReachedIn(g, k, n);
    forall n: nat ensures e(n) <= e(n + 1) { ReachedNext(g, k, n); }
    forall n: nat | e(n) == e(n + 1) ensures e(n + 1) == e(n + 2) {
      ReachedNext(g, k, n);
      ReachedNext(g, k, n + 1);
    }
    forall n: nat ensures forall x :: x in e(n) ==> x < |g| { ReachedBelow(g, k, n); }
    Stands(e, |g|, |g| + 1);
  }

  lemma {:induction false} ReachedFrom(g: seq<Tree>, k: nat, j: nat, n: nat)
    requires k < |g| && j in Reached(g, k)
    ensures ReachedIn(g, j, n) <= Reached(g, k)
    decreases n
  {
    hide Reached;
    if n > 0 {
      ReachedFrom(g, k, j, n - 1);
      var before := ReachedIn(g, j, n - 1);
      forall x | x in CalledBy(g, before) ensures x in Reached(g, k) {
        var r :| r in before && r < |g| && Calls(g[r], x);
        ReachedCalls(g, k, r, x);
      }
    }
  }

  lemma {:induction false} ReachesItself(g: seq<Tree>, k: nat, n: nat)
    ensures k in ReachedIn(g, k, n)
    decreases n
  {
    if n > 0 { ReachesItself(g, k, n - 1); }
  }

  /** How many rules a rule leads to. */
  function Rank(g: seq<Tree>, k: nat): nat { |Reached(g, k)| }

  /** A call never raises the rank; one that does not lead back lowers it. */
  lemma CallsRank(g: seq<Tree>, r: nat, j: nat)
    requires r < |g| && j < |g| && Calls(g[r], j)
    ensures Rank(g, j) <= Rank(g, r)
    ensures r !in Reached(g, j) ==> Rank(g, j) < Rank(g, r)
  {
    ReachesItself(g, r, |g|);
    ReachedCalls(g, r, r, j);
    ReachedFrom(g, r, j, |g|);
    if r !in Reached(g, j) { Strict(Reached(g, j), Reached(g, r)); }
    if Reached(g, j) != Reached(g, r) { Strict(Reached(g, j), Reached(g, r)); }
  }

  // ------------------------------------------------------------------ termination

  function Max(x: nat, y: nat): nat { if x < y then y else x }

  /** How deep grammars are nested. */
  function Nesting(t: Tree): nat
    decreases t, 0
  {
    match t
    case TRep(p) => Nesting(p)
    case TNot(p) => Nesting(p)
    case TAnd(p) => Nesting(p)
    case TBehind(_, p) => Nesting(p)
    case TSeq(p1, p2) => Max(Nesting(p1), Nesting(p2))
    case TChoice(p1, p2) => Max(Nesting(p1), Nesting(p2))
    case TGrammar(rs) => 1 + NestingAll(rs)
    case _ => 0
  }

  function NestingAll(ts: seq<Tree>): (n: nat)
    ensures forall k :: 0 <= k < |ts| ==> Nesting(ts[k]) <= n
    decreases ts, 1
  {
    if ts == [] then 0 else
    var n := NestingAll(ts[1..]);
    assert forall k :: 1 <= k < |ts| ==> ts[k] == ts[1..][k - 1];
    Max(Nesting(ts[0]), n)
  }

  /** The verdict covers every way to match the empty string, and the accumulator. */
  lemma {:induction false} VerdictSound(f: nat, d: nat, g: seq<Tree>, t: Tree, npassed: nat, nb: bool, s: seq<byte>, i: nat)
    requires SureRule(d, g, t, npassed, nb).Nb? && i <= |s|
    ensures nb || Eval(f, g, t, s, i) == Succ(i) ==> SureRule(d, g, t, npassed, nb).b
    decreases MAXRULES - npassed, t, f
  {
    match t
    case TBehind(n, p) => if n == 0 { VerdictSound(f, d, g, p, npassed, true, s, i); }
    case TNot(p) => VerdictSound(f, d, g, p, npassed, true, s, i);
    case TAnd(p) => VerdictSound(f, d, g, p, npassed, true, s, i);
    case TRep(p) => VerdictSound(f, d, g, p, npassed, true, s, i);
    case TCall(k) => VerdictSound(if f > 0 then f - 1 else 0, d, g, g[k], npassed + 1, nb, s, i);
    case TSeq(p1, p2) =>
      VerdictSound(f, d, g, p1, npassed, false, s, i);
      if SureRule(d, g, p1, npassed, false).b { VerdictSound(f, d, g, p2, npassed, nb, s, i); }
    case TChoice(p1, p2) =>
      VerdictSound(f, d, g, p1, npassed, nb, s, i);
      VerdictSound(f, d, g, p2, npassed, SureRule(d, g, p1, npassed, nb).b, s, i);
    case TGrammar(rs) => if Eval(f, g, t, s, i) == Succ(i) { NullableSound(f, g, t, d, s, i); }
    case _ =>
  }

  /** The grammar around a pattern: its rules are well formed and, where used, checked. */
  predicate Surroundings(d: nat, h: nat, g: seq<Tree>) {
    SureGrammar(d, g)
    && forall k :: 0 <= k < |g| ==> WellFormed(d, g, g[k]) && AllSure(d, g[k]) && Nesting(g[k]) <= h
  }

  predicate Sound(d: nat, h: nat, g: seq<Tree>, t: Tree) {
    WellFormed(d, g, t) && !CheckLoops(d, g, t) && AllSure(d, t) && Nesting(t) <= h
  }

  /** A pattern of a rule of rank `c`, at least `off` characters behind its start: it calls no rule of
      a higher rank, and a look-behind calls only lower ones from the start of the rule or before it. */
  ghost predicate Inside(d: nat, h: nat, c: nat, g: seq<Tree>, t: Tree, off: int) {
    Sound(d, h, g, t)
    && forall k: nat :: Calls(t, k) ==> Used(g, k) && Rank(g, k) <= c && (BackCalls(d, g, t, off, k) ==> Rank(g, k) < c)
  }

  /** The same for a pattern in a look-behind. */
  ghost predicate Beneath(d: nat, h: nat, c: nat, g: seq<Tree>, t: Tree, off: int) {
    Sound(d, h, g, t)
    && forall k: nat :: Calls(t, k) ==> Used(g, k) && Rank(g, k) <= c && (LowCalls(d, g, t, off, k) ==> Rank(g, k) < c)
  }

  lemma RuleInside(d: nat, h: nat, g: seq<Tree>, k: nat)
    requires Surroundings(d, h, g) && k < |g| && Used(g, k)
    ensures Inside(d, h, Rank(g, k), g, g[k], 0) && SureRule(d, g, g[k], 0, false).Nb?
  {
    hide Reached, Rank, WellFormed, AllSure, CheckLoops, SureRule, Nesting;
    RuleSound(d, h, g, k);
    forall j: nat | Calls(g[k], j) ensures Used(g, j) && Rank(g, j) <= Rank(g, k) && (BackCalls(d, g, g[k], 0, j) ==> Rank(g, j) < Rank(g, k)) {
      CallsBelow(d, g, g[k], j);
      CallsRank(g, k, j);
    }
  }

  lemma RuleSound(d: nat, h: nat, g: seq<Tree>, k: nat)
    requires Surroundings(d, h, g) && k < |g| && Used(g, k)
    ensures Sound(d, h, g, g[k]) && SureRule(d, g, g[k], 0, false).Nb?
    ensures forall j: nat :: j < |g| && BackCalls(d, g, g[k], 0, j) ==> k !in Reached(g, j)
  {}

  lemma GrammarInside(d: nat, g: seq<Tree>, rs: seq<Tree>)
    requires WellFormed(d, g, TGrammar(rs)) && AllSure(d, TGrammar(rs))
    ensures rs != [] && Surroundings(d, NestingAll(rs), rs) && Used(rs, 0)
  {}

  /** Each match consumes as much as is claimed. */
  lemma {:induction false} LeastLenSound(f: nat, g: seq<Tree>, t: Tree, d: nat, s: seq<byte>, i: nat)
    requires i <= |s| && Eval(f, g, t, s, i).Succ?
    ensures Eval(f, g, t, s, i).pos >= i + LeastLen(g, t, d)
    decreases f, t
  {
    match t
    case TSeq(p1, p2) =>
      LeastLenSound(f, g, p1, d, s, i);
      LeastLenSound(f, g, p2, d, s, Eval(f, g, p1, s, i).pos);
    case TChoice(p1, p2) => LeastLenSound(f, g, if Eval(f, g, p1, s, i).Fail? then p2 else p1, d, s, i);
    case TCall(k) => if d > 0 { LeastLenSound(f - 1, g, g[k], d - 1, s, i); }
    case TGrammar(rs) => LeastLenSound(f, rs, rs[0], d, s, i);
    case _ =>
  }

  lemma SeqFuel(g: seq<Tree>, p1: Tree, p2: Tree, s: seq<byte>, i: nat, f1: nat, f2: nat) returns (f: nat)
    requires i <= |s| && Eval(f1, g, p1, s, i) != Out
    requires Eval(f1, g, p1, s, i).Succ? ==> Eval(f2, g, p2, s, Eval(f1, g, p1, s, i).pos) != Out
    ensures Eval(f, g, TSeq(p1, p2), s, i) != Out
  {
    f := Max(f1, f2);
    EvalMono(f1, f, g, p1, s, i);
    var r := Eval(f1, g, p1, s, i);
    if r.Succ? { EvalMono(f2, f, g, p2, s, r.pos); }
  }

  lemma ChoiceFuel(g: seq<Tree>, p1: Tree, p2: Tree, s: seq<byte>, i: nat, f1: nat, f2: nat) returns (f: nat)
    requires i <= |s| && Eval(f1, g, p1, s, i) != Out && Eval(f2, g, p2, s, i) != Out
    ensures Eval(f, g, TChoice(p1, p2), s, i) != Out
  {
    f := Max(f1, f2);
    EvalMono(f1, f, g, p1, s, i);
    EvalMono(f2, f, g, p2, s, i);
  }

  lemma RepFuel(g: seq<Tree>, p: Tree, s: seq<byte>, i: nat, f1: nat, f2: nat) returns (f: nat)
    requires i <= |s| && Eval(f1, g, p, s, i) != Out
    requires Eval(f1, g, p, s, i).Succ? ==> Eval(f2, g, TRep(p), s, Eval(f1, g, p, s, i).pos) != Out
    ensures Eval(f, g, TRep(p), s, i) != Out
  {
    f := Max(f1, f2) + 1;
    EvalMono(f1, f, g, p, s, i);
    var r := Eval(f1, g, p, s, i);
    if r.Succ? { EvalMono(f2, f - 1, g, TRep(p), s, r.pos); }
  }

  /** Enough fuel for a pattern in left position of a checked rule. */
  lemma {:induction false} TerminatesLeft(d: nat, h: nat, c: nat, g: seq<Tree>, t: Tree, off: int, npassed: nat, nb: bool, s: seq<byte>, e: nat)
    returns (f: nat)
    requires e <= |s| && off <= 0 && Surroundings(d, h, g) && Inside(d, h, c, g, t, off)
    requires npassed <= MAXRULES && SureRule(d, g, t, npassed, nb).Nb?
    ensures Eval(f, g, t, s, e) != Out
    decreases h, 1, c, |s| - e, MAXRULES - npassed, 1, t
  {
    hide Surroundings, Rank;
    match t
    case TRep(p) =>
      var f1 := TerminatesLeft(d, h, c, g, p, off, npassed, true, s, e);
      f := RepTerminates(d, h, c, g, p, off, s, e, e, f1);
    case TNot(p) => f := TerminatesLeft(d, h, c, g, p, off, npassed, true, s, e);
    case TAnd(p) => f := TerminatesLeft(d, h, c, g, p, off, npassed, true, s, e);
    case TBehind(n, p) =>
      if n == 0 {
        f := TerminatesLeft(d, h, c, g, p, off, npassed, true, s, e);
      } else {
        f := 0;
        if n <= e { f := TerminatesBeneath(d, h, c, g, p, off - n, s, e, e - n); }
      }
    case TSeq(p1, p2) =>
      var f1 := TerminatesLeft(d, h, c, g, p1, off, npassed, false, s, e);
      var r := Eval(f1, g, p1, s, e);
      var f2 := 0;
      if r.Succ? {
        LeastLenSound(f1, g, p1, d, s, e);
        if r.pos == e {
          VerdictSound(f1, d, g, p1, npassed, false, s, e);
          f2 := TerminatesLeft(d, h, c, g, p2, off + LeastLen(g, p1, d), npassed, nb, s, e);
        } else {
          f2 := Terminates(d, h, c, g, p2, off + LeastLen(g, p1, d), s, e, r.pos);
        }
      }
      f := SeqFuel(g, p1, p2, s, e, f1, f2);
    case TChoice(p1, p2) =>
      var f1 := TerminatesLeft(d, h, c, g, p1, off, npassed, nb, s, e);
      var f2 := TerminatesLeft(d, h, c, g, p2, off, npassed, SureRule(d, g, p1, npassed, nb).b, s, e);
      f := ChoiceFuel(g, p1, p2, s, e, f1, f2);
    case TCall(k) =>
      RuleInside(d, h, g, k);
      var f1 := TerminatesLeft(d, h, Rank(g, k), g, g[k], 0, npassed + 1, nb, s, e);
      f := f1 + 1;
    case TGrammar(rs) => f := GrammarTerminates(d, h, g, t, s, e);
    case _ => f := 0;
  }

  /** A sub-grammar brings its own checked rules. */
  lemma {:induction false} GrammarTerminates(d: nat, h: nat, g: seq<Tree>, t: Tree, s: seq<byte>, i: nat) returns (f: nat)
    requires t.TGrammar? && i <= |s| && WellFormed(d, g, t) && AllSure(d, t) && Nesting(t) <= h
    ensures Eval(f, g, t, s, i) != Out
    decreases h, 0, t, 0
  {
    var rs := t.rules;
    var h' := NestingAll(rs);
    GrammarInside(d, g, rs);
    RuleInside(d, h', rs, 0);
    f := TerminatesLeft(d, h', Rank(rs, 0), rs, rs[0], 0, 0, false, s, i);
  }

  /** Enough fuel for a pattern in a look-behind of a rule entered at `e`, at any position. */
  lemma {:induction false} TerminatesBeneath(d: nat, h: nat, c: nat, g: seq<Tree>, t: Tree, off: int, s: seq<byte>, e: nat, i: nat)
    returns (f: nat)
    requires e <= |s| && i <= |s| && e + off <= i && Surroundings(d, h, g) && Beneath(d, h, c, g, t, off)
    ensures Eval(f, g, t, s, i) != Out
    decreases h, 1, c, |s| - e, 0, 0, t, |s| - i
  {
    hide Surroundings, Rank;
    f := 0;
    match t
    case TRep(p) =>
      var f1 := TerminatesBeneath(d, h, c, g, p, off, s, e, i);
      var r := Eval(f1, g, p, s, i);
      var f2 := 0;
      if r.Succ? {
        if r.pos == i { NullableSound(f1, g, p, d, s, i); }
        f2 := TerminatesBeneath(d, h, c, g, t, off, s, e, r.pos);
      }
      f := RepFuel(g, p, s, i, f1, f2);
    case TNot(p) => f := TerminatesBeneath(d, h, c, g, p, off, s, e, i);
    case TAnd(p) => f := TerminatesBeneath(d, h, c, g, p, off, s, e, i);
    case TBehind(n, p) =>
      if n <= i { f := TerminatesBeneath(d, h, c, g, p, off - n, s, e, i - n); }
    case TSeq(p1, p2) =>
      var f1 := TerminatesBeneath(d, h, c, g, p1, off, s, e, i);
      var r := Eval(f1, g, p1, s, i);
      var f2 := 0;
      if r.Succ? {
        LeastLenSound(f1, g, p1, d, s, i);
        f2 := TerminatesBeneath(d, h, c, g, p2, off + LeastLen(g, p1, d), s, e, r.pos);
      }
      f := SeqFuel(g, p1, p2, s, i, f1, f2);
    case TChoice(p1, p2) =>
      var f1 := TerminatesBeneath(d, h, c, g, p1, off, s, e, i);
      var f2 := TerminatesBeneath(d, h, c, g, p2, off, s, e, i);
      f := ChoiceFuel(g, p1, p2, s, i, f1, f2);
    case TCall(k) =>
      RuleInside(d, h, g, k);
      var f1 := TerminatesLeft(d, h, Rank(g, k), g, g[k], 0, 0, false, s, i);
      f := f1 + 1;
    case TGrammar(rs) => f := GrammarTerminates(d, h, g, t, s, i);
    case _ =>
  }

  /** The iterations after the first, which has made progress. */
  lemma {:induction false} RepTerminates(d: nat, h: nat, c: nat, g: seq<Tree>, p: Tree, off: int, s: seq<byte>, e: nat, i: nat, f1: nat)
    returns (f: nat)
    requires e <= i <= |s| && e + off <= i && Surroundings(d, h, g) && Inside(d, h, c, g, TRep(p), off) && Eval(f1, g, p, s, i) != Out
    ensures Eval(f, g, TRep(p), s, i) != Out
    decreases h, 1, c, |s| - e, 0, 1, p, |s| - i, 1
  {
    var r := Eval(f1, g, p, s, i);
    var f2 := 0;
    if r.Succ? {
      if r.pos == i { NullableSound(f1, g, p, d, s, i); }
      f2 := Terminates(d, h, c, g, p, off, s, e, r.pos);
      f2 := RepTerminates(d, h, c, g, p, off, s, e, r.pos, f2);
    }
    f := RepFuel(g, p, s, i, f1, f2);
  }

  /** Enough fuel for any pattern of a rule that has consumed something since it was entered at `e`. */
  lemma {:induction false} Terminates(d: nat, h: nat, c: nat, g: seq<Tree>, t: Tree, off: int, s: seq<byte>, e: nat, i: nat)
    returns (f: nat)
    requires e < i <= |s| && e + off <= i && Surroundings(d, h, g) && Inside(d, h, c, g, t, off)
    ensures Eval(f, g, t, s, i) != Out
    decreases h, 1, c, |s| - e, 0, 1, t, |s| - i, 0
  {
    hide Surroundings, Rank;
    match t
    case TRep(p) =>
      var f1 := Terminates(d, h, c, g, p, off, s, e, i);
      f := RepTerminates(d, h, c, g, p, off, s, e, i, f1);
    case TNot(p) => f := Terminates(d, h, c, g, p, off, s, e, i);
    case TAnd(p) => f := Terminates(d, h, c, g, p, off, s, e, i);
    case TBehind(n, p) =>
      if n == 0 {
        f := Terminates(d, h, c, g, p, off, s, e, i);
      } else {
        f := 0;
        if n <= i { f := TerminatesBeneath(d, h, c, g, p, off - n, s, e, i - n); }
      }
    case TSeq(p1, p2) =>
      var f1 := Terminates(d, h, c, g, p1, off, s, e, i);
      var r := Eval(f1, g, p1, s, i);
      var f2 := 0;
      if r.Succ? {
        LeastLenSound(f1, g, p1, d, s, i);
        f2 := Terminates(d, h, c, g, p2, off + LeastLen(g, p1, d), s, e, r.pos);
      }
      f := SeqFuel(g, p1, p2, s, i, f1, f2);
    case TChoice(p1, p2) =>
      var f1 := Terminates(d, h, c, g, p1, off, s, e, i);
      var f2 := Terminates(d, h, c, g, p2, off, s, e, i);
      f := ChoiceFuel(g, p1, p2, s, i, f1, f2);
    case TCall(k) =>
      RuleInside(d, h, g, k);
      var f1 := TerminatesLeft(d, h, Rank(g, k), g, g[k], 0, 0, false, s, i);
      f := f1 + 1;
    case TGrammar(rs) => f := GrammarTerminates(d, h, g, t, s, i);
    case _ => f := 0;
  }

  /** Matching an accepted pattern terminates on every subject. */
  lemma AcceptedTerminates(d: nat, t: Tree, s: seq<byte>, i: nat) returns (f: nat)
    requires Accepted(d, t) && i <= |s|
    ensures Eval(f, [], t, s, i) != Out
  {
    forall k: nat ensures !Calls(t, k) { if Calls(t, k) { CallsBelow(d, [], t, k); } }
    f := TerminatesBeneath(d, Nesting(t), 0, [], t, 0, s, i, i);
  }

  // ------------------------------------------------------------------ no rules jump in a circle

  /** What the check says about the head of a pattern: one that may be jumped through can match the
      empty string, and a rule it begins with was entered. */
  lemma {:induction false} HeadChecked(d: nat, n: nat, g: seq<Tree>, t: Tree, npassed: nat, nb: bool) returns (nb': bool)
    requires SureRule(d, g, t, npassed, nb).Nb?
    ensures HeadOf(n, g, t).Through? ==> SureRule(d, g, t, npassed, nb).b
    ensures HeadOf(n, g, t).ToRule? ==>
              var k := HeadOf(n, g, t).k;
              k < |g| && npassed < MAXRULES && Calls(t, k) && SureRule(d, g, g[k], npassed + 1, nb').Nb?
    decreases t
  {
    hide NeverMatches, FixedLen;
    nb' := nb;
    match t
    case TBehind(k, p) =>
      if k == 0 { nb' := HeadChecked(d, n, g, p, npassed, true); }
    case TNot(p) => SureKeepsNb(d, g, p, npassed);
    case TRep(p) => SureKeepsNb(d, g, p, npassed);
    case TAnd(p) => nb' := HeadChecked(d, n, g, p, npassed, true);
    case TSeq(p1, p2) =>
      nb' := HeadChecked(d, n, g, p1, npassed, false);
      if HeadOf(n, g, p1).Through? { nb' := HeadChecked(d, n, g, p2, npassed, nb); }
    case TChoice(p1, p2) => nb' := HeadChecked(d, n, g, p2, npassed, SureRule(d, g, p1, npassed, nb).b);
    case _ =>
  }

  lemma {:induction false} CheckedEnds(d: nat, n: nat, rs: seq<Tree>, k: nat, npassed: nat, nb: bool)
    requires k < |rs| && npassed <= MAXRULES && SureRule(d, rs, rs[k], npassed, nb).Nb?
    ensures Ends(n, rs, k, MAXRULES - npassed)
    decreases MAXRULES - npassed
  {
    var h := HeadOf(n, rs, rs[k]);
    if h.ToRule? && h.tail {
      var nb' := HeadChecked(d, n, rs, rs[k], npassed, nb);
      CheckedEnds(d, n, rs, h.k, npassed + 1, nb');
    }
  }

  lemma {:induction false} HeadCalls(d: nat, g: seq<Tree>, t: Tree)
    ensures HeadOf(d, g, t).ToRule? ==> Calls(t, HeadOf(d, g, t).k)
    decreases t
  {
    match t
    case TBehind(n, p) => HeadCalls(d, g, p);
    case TAnd(p) => HeadCalls(d, g, p);
    case TSeq(p1, p2) =>
      HeadCalls(d, g, p1);
      HeadCalls(d, g, p2);
    case TChoice(_, p2) => HeadCalls(d, g, p2);
    case _ =>
  }

  lemma GrammarEnds(d: nat, n: nat, rs: seq<Tree>)
    requires SureGrammar(d, rs)
    ensures NoCircle(n, rs)
  {
    hide HeadOf, SureRule, Used;
    forall k: nat | k < |rs| ensures Ends(n, rs, k, |rs|) {
      var h := HeadOf(n, rs, rs[k]);
      if h.ToRule? && h.tail && h.k < |rs| {
        HeadCalls(n, rs, rs[k]);
        CalledIsUsed(rs, k, h.k);
        CheckedEnds(d, n, rs, h.k, 0, false);
        assert Ends(n, rs, k, MAXRULES + 1);
        EndsSoon(n, rs, k, MAXRULES + 1);
      }
    }
  }

  lemma CalledIsUsed(rs: seq<Tree>, r: nat, k: nat)
    requires r < |rs| && Calls(rs[r], k)
    ensures Used(rs, k)
  {}

  /** An accepted pattern can be compiled. */
  lemma {:induction false} SureJumpsEnd(d: nat, n: nat, g: seq<Tree>, t: Tree)
    requires AllSure(d, t)
    ensures JumpsEnd(n, g, t)
    decreases t
  {
    hide NoCircle, HeadFail, SureGrammar;
    match t
    case TRep(p) => SureJumpsEnd(d, n, g, p);
    case TNot(p) => SureJumpsEnd(d, n, g, p);
    case TAnd(p) => SureJumpsEnd(d, n, g, p);
    case TBehind(_, p) => SureJumpsEnd(d, n, g, p);
    case TSeq(p1, p2) =>
      SureJumpsEnd(d, n, g, p1);
      SureJumpsEnd(d, n, g, p2);
    case TChoice(p1, p2) =>
      SureJumpsEnd(d, n, g, p1);
      SureJumpsEnd(d, n, g, p2);
    case TGrammar(rs) =>
      GrammarEnds(d, n, rs);
      forall k | 0 <= k < |rs| ensures JumpsEnd(n, rs, rs[k]) { SureJumpsEnd(d, n, rs, rs[k]); }
    case _ =>
  }
}
