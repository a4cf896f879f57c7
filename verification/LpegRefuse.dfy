/**
 * When a grammar is refused: exactly when a rule reaches itself by left calls, and, in patterns
 * without predicates, only when the body of some loop matches the empty string.
 */
module LpegRefuse {
  import opened LpegTree
  import opened LpegAnalysis
  import opened LpegLink
  import opened LpegVerify

  // ------------------------------------------------------------------ left calls

  /** May the pattern match without consuming anything, by at most `n` nested calls? */
  predicate EmptyIn(n: nat, g: seq<Tree>, t: Tree)
    decreases n, t
  {
    match t
    case TTrue => true
    case TRep(_) => true
    case TNot(_) => true
    case TAnd(_) => true
    case TBehind(_, _) => true
    case TSeq(p1, p2) => EmptyIn(n, g, p1) && EmptyIn(n, g, p2)
    case TChoice(p1, p2) => EmptyIn(n, g, p1) || EmptyIn(n, g, p2)
    case TCall(k) => k < |g| && n > 0 && EmptyIn(n - 1, g, g[k])
    case TGrammar(rs) => rs != [] && EmptyIn(n, rs, rs[0])
    case _ => false
  }

  ghost predicate MayBeEmpty(g: seq<Tree>, t: Tree) { exists n :: EmptyIn(n, g, t) }

  lemma {:induction false} EmptyMore(n: nat, m: nat, g: seq<Tree>, t: Tree)
    requires n <= m && EmptyIn(n, g, t)
    ensures EmptyIn(m, g, t)
    decreases n, t
  {
    match t
    case TSeq(p1, p2) =>
      EmptyMore(n, m, g, p1);
      EmptyMore(n, m, g, p2);
    case TChoice(p1, p2) => EmptyMore(n, m, g, if EmptyIn(n, g, p1) then p1 else p2);
    case TCall(k) => EmptyMore(n - 1, m - 1, g, g[k]);
    case TGrammar(rs) => EmptyMore(n, m, rs, rs[0]);
    case _ =>
  }

  /** It covers every empty match. */
  lemma {:induction false} EmptySound(f: nat, g: seq<Tree>, t: Tree, s: seq<byte>, i: nat)
    requires i <= |s| && Eval(f, g, t, s, i) == Succ(i)
    ensures EmptyIn(f, g, t)
    decreases f, t
  {
    match t
    case TSeq(p1, p2) =>
      EmptySound(f, g, p1, s, i);
      EmptySound(f, g, p2, s, i);
    case TChoice(p1, p2) =>
      if Eval(f, g, p1, s, i).Fail? { EmptySound(f, g, p2, s, i); } else { EmptySound(f, g, p1, s, i); }
    case TCall(k) => EmptySound(f - 1, g, g[k], s, i);
    case TGrammar(rs) => EmptySound(f, rs, rs[0], s, i);
    case _ =>
  }

  /** Does the pattern call rule `k` where it may have consumed nothing? `behind` tells whether a
      look-behind of width 0 counts. */
  ghost predicate LeftCalls(behind: bool, g: seq<Tree>, t: Tree, k: nat)
    decreases t
  {
    match t
    case TCall(r) => r == k
    case TRep(p) => LeftCalls(behind, g, p, k)
    case TNot(p) => LeftCalls(behind, g, p, k)
    case TAnd(p) => LeftCalls(behind, g, p, k)
    case TBehind(n, p) => behind && n == 0 && LeftCalls(behind, g, p, k)
    case TSeq(p1, p2) => LeftCalls(behind, g, p1, k) || (MayBeEmpty(g, p1) && LeftCalls(behind, g, p2, k))
    case TChoice(p1, p2) => LeftCalls(behind, g, p1, k) || LeftCalls(behind, g, p2, k)
    case _ => false
  }

  ghost predicate LeftStep(behind: bool, g: seq<Tree>, j: nat, k: nat) { j < |g| && LeftCalls(behind, g, g[j], k) }

  /** Each rule of the row calls the next one in left position. */
  ghost predicate LeftWay(behind: bool, g: seq<Tree>, way: seq<nat>) {
    && (forall i :: 0 <= i < |way| ==> way[i] < |g|)
    && (forall i {:trigger way[i]} :: 0 < i < |way| ==> LeftStep(behind, g, way[i - 1], way[i]))
  }

  /** The rule reaches itself by left calls. */
  ghost predicate LeftRecursive(behind: bool, g: seq<Tree>, k: nat) {
    exists way: seq<nat> :: |way| >= 2 && way[0] == k && way[|way| - 1] == k && LeftWay(behind, g, way)
  }

  /** All calls of the pattern name one of `n` rules. */
  predicate CallsIn(n: nat, t: Tree)
    decreases t
  {
    match t
    case TCall(k) => k < n
    case TRep(p) => CallsIn(n, p)
    case TNot(p) => CallsIn(n, p)
    case TAnd(p) => CallsIn(n, p)
    case TBehind(_, p) => CallsIn(n, p)
    case TSeq(p1, p2) => CallsIn(n, p1) && CallsIn(n, p2)
    case TChoice(p1, p2) => CallsIn(n, p1) && CallsIn(n, p2)
    case _ => true
  }

  predicate Closed(g: seq<Tree>) { forall r :: 0 <= r < |g| ==> CallsIn(|g|, g[r]) }

  /** The search for whether a sub-grammar may match nothing comes to an end with this room. */
  predicate SubsAnswered(d: nat, g: seq<Tree>, t: Tree)
    decreases t
  {
    match t
    case TRep(p) => SubsAnswered(d, g, p)
    case TNot(p) => SubsAnswered(d, g, p)
    case TAnd(p) => SubsAnswered(d, g, p)
    case TBehind(_, p) => SubsAnswered(d, g, p)
    case TSeq(p1, p2) => SubsAnswered(d, g, p1) && SubsAnswered(d, g, p2)
    case TChoice(p1, p2) => SubsAnswered(d, g, p1) && SubsAnswered(d, g, p2)
    case TGrammar(_) => CheckAux(g, t, PEnullable, d).Is?
    case _ => true
  }

  predicate Answered(d: nat, g: seq<Tree>) { forall r :: 0 <= r < |g| ==> SubsAnswered(d, g, g[r]) }

  // ------------------------------------------------------------------ the analysis and the flag

  lemma {:induction false} TrueEmpty(g: seq<Tree>, t: Tree, n: nat)
    requires CheckAux(g, t, PEnullable, n) == Is(true)
    ensures EmptyIn(n, g, t)
    decreases n, t
  {
    match t
    case TSeq(p1, p2) =>
      TrueEmpty(g, p1, n);
      TrueEmpty(g, p2, n);
    case TChoice(p1, p2) => TrueEmpty(g, if CheckAux(g, p2, PEnullable, n) == Is(true) then p2 else p1, n);
    case TGrammar(rs) => TrueEmpty(rs, rs[0], n);
    case TCall(k) => TrueEmpty(g, g[k], n - 1);
    case _ =>
  }

  lemma {:induction false} EmptyNullable(n: nat, g: seq<Tree>, t: Tree, d: nat)
    requires EmptyIn(n, g, t)
    ensures Nullable(g, t, d)
    decreases n, t
  {
    match t
    case TSeq(p1, p2) =>
      EmptyNullable(n, g, p1, d);
      EmptyNullable(n, g, p2, d);
    case TChoice(p1, p2) => EmptyNullable(n, g, if EmptyIn(n, g, p1) then p1 else p2, d);
    case TCall(k) => if d > 0 { EmptyNullable(n - 1, g, g[k], d - 1); }
    case TGrammar(rs) => EmptyNullable(n, rs, rs[0], d);
    case _ =>
  }

  /** Both checks, to say about them what holds of both. */
  function Check(sure: bool, d: nat, g: seq<Tree>, t: Tree, npassed: nat, nb: bool): Verdict {
    if sure then SureRule(d, g, t, npassed, nb) else VerifyRule(d, g, t, npassed, nb)
  }

  lemma AtomEmpty(g: seq<Tree>, t: Tree)
    ensures t.TTrue? || t.TRep? || t.TNot? || t.TAnd? || t.TBehind? ==> MayBeEmpty(g, t)
  {
    if t.TTrue? || t.TRep? || t.TNot? || t.TAnd? || t.TBehind? { assert EmptyIn(0, g, t); }
  }

  lemma AnsweredTrue(d: nat, g: seq<Tree>, t: Tree)
    requires Nullable(g, t, d) && CheckAux(g, t, PEnullable, d).Is?
    ensures CheckAux(g, t, PEnullable, d) == Is(true)
  {
    hide CheckAux;
    YesOrNo(CheckAux(g, t, PEnullable, d));
  }

  lemma YesOrNo(r: Ans<bool>)
    requires r.Is?
    ensures r == Is(true) || r == Is(false)
  {
    assert r == Is(r.v);
    if r.v { assert r == Is(true); } else { assert r == Is(false); }
  }

  /** A flag that is raised by the pattern itself is right. */
  lemma {:induction false} FlagEmpty(sure: bool, d: nat, g: seq<Tree>, t: Tree, npassed: nat)
    requires Closed(g) && Answered(d, g) && CallsIn(|g|, t) && SubsAnswered(d, g, t)
    requires Check(sure, d, g, t, npassed, false) == Nb(true)
    ensures MayBeEmpty(g, t)
    decreases MAXRULES - npassed, t
  {
    match t
    case TCall(k) =>
      FlagEmpty(sure, d, g, g[k], npassed + 1);
      var n: nat :| EmptyIn(n, g, g[k]);
      assert EmptyIn(n + 1, g, t);
    case TSeq(p1, p2) =>
      FlagEmpty(sure, d, g, p1, npassed);
      FlagEmpty(sure, d, g, p2, npassed);
      var n1: nat :| EmptyIn(n1, g, p1);
      var n2: nat :| EmptyIn(n2, g, p2);
      EmptyMore(n1, Max(n1, n2), g, p1);
      EmptyMore(n2, Max(n1, n2), g, p2);
      assert EmptyIn(Max(n1, n2), g, t);
    case TChoice(p1, p2) =>
      var p := if Check(sure, d, g, p1, npassed, false) == Nb(true) then p1 else p2;
      FlagEmpty(sure, d, g, p, npassed);
      var n: nat :| EmptyIn(n, g, p);
      assert EmptyIn(n, g, t);
    case TGrammar(rs) =>
      AnsweredTrue(d, g, t);
      TrueEmpty(g, t, d);
      assert EmptyIn(d, g, t);
    case _ => AtomEmpty(g, t);
  }

  /** The flag of the corrected check misses nothing. */
  lemma {:induction false} EmptyFlag(n: nat, d: nat, g: seq<Tree>, t: Tree, npassed: nat, nb: bool)
    requires EmptyIn(n, g, t) && SureRule(d, g, t, npassed, nb).Nb?
    ensures SureRule(d, g, t, npassed, nb).b
    decreases n, t
  {
    match t
    case TRep(p) => SureKeepsNb(d, g, p, npassed);
    case TNot(p) => SureKeepsNb(d, g, p, npassed);
    case TAnd(p) => SureKeepsNb(d, g, p, npassed);
    case TBehind(k, p) => if k == 0 { SureKeepsNb(d, g, p, npassed); }
    case TSeq(p1, p2) =>
      EmptyFlag(n, d, g, p1, npassed, false);
      EmptyFlag(n, d, g, p2, npassed, nb);
    case TChoice(p1, p2) =>
      var b := SureRule(d, g, p1, npassed, nb).b;
      if EmptyIn(n, g, p2) {
        EmptyFlag(n, d, g, p2, npassed, b);
      } else {
        EmptyFlag(n, d, g, p1, npassed, nb);
        SureKeepsNb(d, g, p2, npassed);
      }
    case TCall(k) => EmptyFlag(n - 1, d, g, g[k], npassed + 1, nb);
    case TGrammar(_) => EmptyNullable(n, g, t, d);
    case _ =>
  }

  // ------------------------------------------------------------------ refused patterns have left calls

  /** A refusal shows a row of left calls that is too long. */
  lemma {:induction false} RefusedWay(sure: bool, d: nat, g: seq<Tree>, t: Tree, npassed: nat, nb: bool) returns (way: seq<nat>)
    requires Closed(g) && Answered(d, g) && CallsIn(|g|, t) && SubsAnswered(d, g, t) && npassed <= MAXRULES
    requires Check(sure, d, g, t, npassed, nb) == Reject
    ensures |way| == MAXRULES - npassed + 1 && LeftWay(sure, g, way) && LeftCalls(sure, g, t, way[0])
    decreases MAXRULES - npassed, t
  {
    match t
    case TRep(p) => way := RefusedWay(sure, d, g, p, npassed, true);
    case TNot(p) => way := RefusedWay(sure, d, g, p, npassed, true);
    case TAnd(p) => way := RefusedWay(sure, d, g, p, npassed, true);
    case TBehind(n, p) => way := RefusedWay(sure, d, g, p, npassed, true);
    case TCall(k) =>
      if npassed >= MAXRULES {
        way := [k];
      } else {
        var rest := RefusedWay(sure, d, g, g[k], npassed + 1, nb);
        assert LeftStep(sure, g, k, rest[0]);
        way := [k] + rest;
      }
    case TSeq(p1, p2) =>
      var v := Check(sure, d, g, p1, npassed, false);
      if v == Reject {
        way := RefusedWay(sure, d, g, p1, npassed, false);
      } else {
        FlagEmpty(sure, d, g, p1, npassed);
        way := RefusedWay(sure, d, g, p2, npassed, nb);
      }
    case TChoice(p1, p2) =>
      var v := Check(sure, d, g, p1, npassed, nb);
      if v == Reject {
        way := RefusedWay(sure, d, g, p1, npassed, nb);
      } else {
        way := RefusedWay(sure, d, g, p2, npassed, v.b);
      }
    case _ => assert false;
  }

  /** A row of left calls that is too long is refused. */
  lemma {:induction false} WayRefused(d: nat, g: seq<Tree>, t: Tree, npassed: nat, nb: bool, way: seq<nat>)
    requires npassed <= MAXRULES && |way| == MAXRULES - npassed + 1
    requires LeftWay(true, g, way) && LeftCalls(true, g, t, way[0])
    ensures SureRule(d, g, t, npassed, nb) == Reject
    decreases MAXRULES - npassed, t
  {
    match t
    case TRep(p) => WayRefused(d, g, p, npassed, true, way);
    case TNot(p) => WayRefused(d, g, p, npassed, true, way);
    case TAnd(p) => WayRefused(d, g, p, npassed, true, way);
    case TBehind(n, p) => WayRefused(d, g, p, npassed, true, way);
    case TCall(k) =>
      if npassed < MAXRULES {
        var rest := way[1..];
        assert forall i :: 0 <= i < |rest| ==> rest[i] == way[i + 1];
        assert LeftStep(true, g, way[0], way[1]);
        WayRefused(d, g, g[k], npassed + 1, nb, rest);
      }
    case TSeq(p1, p2) =>
      if LeftCalls(true, g, p1, way[0]) {
        WayRefused(d, g, p1, npassed, false, way);
      } else {
        var n: nat :| EmptyIn(n, g, p1);
        if SureRule(d, g, p1, npassed, false).Nb? { EmptyFlag(n, d, g, p1, npassed, false); }
        WayRefused(d, g, p2, npassed, nb, way);
      }
    case TChoice(p1, p2) =>
      if LeftCalls(true, g, p1, way[0]) {
        WayRefused(d, g, p1, npassed, nb, way);
      } else {
        var v := SureRule(d, g, p1, npassed, nb);
        if v.Nb? { WayRefused(d, g, p2, npassed, v.b, way); }
      }
    case _ =>
  }

  // ------------------------------------------------------------------ rows of rules

  lemma {:induction false} LeftIsCall(behind: bool, g: seq<Tree>, t: Tree, k: nat)
    requires LeftCalls(behind, g, t, k)
    ensures Calls(t, k)
    decreases t
  {
    match t
    case TRep(p) => LeftIsCall(behind, g, p, k);
    case TNot(p) => LeftIsCall(behind, g, p, k);
    case TAnd(p) => LeftIsCall(behind, g, p, k);
    case TBehind(_, p) => LeftIsCall(behind, g, p, k);
    case TSeq(p1, p2) => LeftIsCall(behind, g, if LeftCalls(behind, g, p1, k) then p1 else p2, k);
    case TChoice(p1, p2) => LeftIsCall(behind, g, if LeftCalls(behind, g, p1, k) then p1 else p2, k);
    case _ =>
  }

  lemma {:induction false} Distinct(way: seq<nat>, n: nat)
    requires forall i, j :: 0 <= i < j < |way| ==> way[i] != way[j]
    requires forall i :: 0 <= i < |way| ==> way[i] < n
    ensures |way| <= n
  {
    var s := set k | k in way;
    SetSize(way, s);
    Below(s, n);
  }

  lemma {:induction false} SetSize(way: seq<nat>, s: set<nat>)
    requires forall i, j :: 0 <= i < j < |way| ==> way[i] != way[j]
    requires s == set k | k in way
    ensures |s| == |way|
    decreases |way|
  {
    if way != [] {
      var rest := way[1..];
      assert forall k :: k in rest <==> k in s && k != way[0];
      SetSize(rest, s - {way[0]});
    }
  }

  lemma {:induction false} Below(s: set<nat>, n: nat)
    requires forall k :: k in s ==> k < n
    ensures |s| <= n
    decreases n
  {
    if n > 0 {
      Below(s - {n - 1}, n - 1);
    } else {
      assert s == {};
    }
  }

  /** A row with more rules than there are comes to one of them twice. */
  lemma Returns(behind: bool, g: seq<Tree>, way: seq<nat>) returns (i: nat)
    requires LeftWay(behind, g, way) && |way| > |g|
    ensures i < |way| && LeftRecursive(behind, g, way[i])
  {
    if forall i, j :: 0 <= i < j < |way| ==> way[i] != way[j] { Distinct(way, |g|); }
    var j: nat;
    i, j :| 0 <= i < j < |way| && way[i] == way[j];
    var round := way[i..j + 1];
    assert forall x :: 0 <= x < |round| ==> round[x] == way[i + x];
    forall x {:trigger round[x]} | 0 < x < |round| ensures LeftStep(behind, g, round[x - 1], round[x]) {
      assert LeftStep(behind, g, way[i + x - 1], way[i + x]);
    }
    assert |round| >= 2 && round[0] == way[i] && round[|round| - 1] == way[i] && LeftWay(behind, g, round);
  }

  /** `n` rules along a round, from its place `i` on. */
  function Around(round: seq<nat>, i: nat, n: nat): (way: seq<nat>)
    requires i + 1 < |round|
    ensures |way| == n
    decreases n
  {
    if n == 0 then [] else [round[i]] + Around(round, if i + 2 < |round| then i + 1 else 0, n - 1)
  }

  lemma {:induction false} AroundWay(behind: bool, g: seq<Tree>, round: seq<nat>, i: nat, n: nat)
    requires LeftWay(behind, g, round) && i + 1 < |round| && round[0] == round[|round| - 1]
    ensures LeftWay(behind, g, Around(round, i, n))
    decreases n
  {
    if n > 0 {
      var j := if i + 2 < |round| then i + 1 else 0;
      AroundWay(behind, g, round, j, n - 1);
      var rest := Around(round, j, n - 1);
      assert round[j] == round[i + 1];
      assert LeftStep(behind, g, round[i], round[i + 1]);
      var way := [round[i]] + rest;
      assert forall x :: 1 <= x < |way| ==> way[x] == rest[x - 1];
      if n > 1 { assert rest[0] == round[j]; }
      forall x {:trigger way[x]} | 0 < x < |way| ensures LeftStep(behind, g, way[x - 1], way[x]) {
        if x > 1 { assert LeftStep(behind, g, rest[x - 2], rest[x - 1]); }
      }
    }
  }

  lemma WayUsed(behind: bool, g: seq<Tree>, way: seq<nat>, i: nat)
    requires LeftWay(behind, g, way) && i < |way| && Used(g, way[0])
    ensures Used(g, way[i])
  {
    if i > 0 {
      assert LeftStep(behind, g, way[i - 1], way[i]);
      LeftIsCall(behind, g, g[way[i - 1]], way[i]);
    }
  }

  /** A refused rule leads to a left-recursive one. */
  lemma RefusedLeft(sure: bool, d: nat, g: seq<Tree>, k: nat) returns (j: nat)
    requires |g| <= 250 && Closed(g) && Answered(d, g) && k < |g| && Used(g, k)
    requires Check(sure, d, g, g[k], 0, false) == Reject
    ensures j < |g| && Used(g, j) && LeftRecursive(sure, g, j)
  {
    hide Check, LeftCalls, LeftRecursive, Used;
    var way := RefusedWay(sure, d, g, g[k], 0, false);
    assert LeftStep(sure, g, k, way[0]);
    var all := [k] + way;
    forall x {:trigger all[x]} | 0 < x < |all| ensures LeftStep(sure, g, all[x - 1], all[x]) {
      if x > 1 { assert LeftStep(sure, g, way[x - 2], way[x - 1]); }
    }
    var i := Returns(sure, g, all);
    WayUsed(sure, g, all, i);
    j := all[i];
  }

  /** A left-recursive rule is refused by the corrected check, whatever room there is. */
  lemma LeftRefused(d: nat, g: seq<Tree>, k: nat)
    requires LeftRecursive(true, g, k)
    ensures k < |g| && SureRule(d, g, g[k], 0, false) == Reject
  {
    hide SureRule, LeftCalls;
    var round: seq<nat> :| |round| >= 2 && round[0] == k && round[|round| - 1] == k && LeftWay(true, g, round);
    var n := MAXRULES + 2;
    AroundWay(true, g, round, 0, n);
    var all := Around(round, 0, n);
    var way := all[1..];
    assert all[0] == k && LeftStep(true, g, all[0], all[1]);
    assert forall x :: 0 <= x < |way| ==> way[x] == all[x + 1];
    forall x {:trigger way[x]} | 0 < x < |way| ensures LeftStep(true, g, way[x - 1], way[x]) {
      assert LeftStep(true, g, all[x], all[x + 1]);
    }
    WayRefused(d, g, g[k], 0, false, way);
  }

  /** Of a grammar with at most 250 rules the corrected check passes all rules exactly when none of
      them reaches itself by left calls. */
  lemma PassedIff(d: nat, g: seq<Tree>)
    requires |g| <= 250 && Closed(g) && Answered(d, g)
    ensures (forall k: nat :: k < |g| && Used(g, k) ==> SureRule(d, g, g[k], 0, false).Nb?)
      <==> !(exists k: nat :: k < |g| && Used(g, k) && LeftRecursive(true, g, k))
  {
    hide SureRule, LeftRecursive, LeftCalls, Used;
    if exists k: nat :: k < |g| && Used(g, k) && SureRule(d, g, g[k], 0, false) == Reject {
      var k: nat :| k < |g| && Used(g, k) && SureRule(d, g, g[k], 0, false) == Reject;
      var j := RefusedLeft(true, d, g, k);
    }
    forall k: nat | k < |g| && Used(g, k) && LeftRecursive(true, g, k) ensures SureRule(d, g, g[k], 0, false) == Reject {
      LeftRefused(d, g, k);
    }
  }

  /** The check of the source refuses a rule only if some rule reaches itself by left calls. */
  lemma RefusedOnlyIfLeft(d: nat, g: seq<Tree>, k: nat)
    requires |g| <= 250 && Closed(g) && Answered(d, g) && k < |g| && Used(g, k)
    requires VerifyRule(d, g, g[k], 0, false) == Reject
    ensures exists j: nat :: j < |g| && Used(g, j) && LeftRecursive(false, g, j)
  {
    hide VerifyRule, LeftRecursive, Used;
    var j := RefusedLeft(false, d, g, k);
  }

  // ------------------------------------------------------------------ loops

  /** `p` is the body of a repetition in the pattern. */
  ghost predicate LoopIn(t: Tree, p: Tree)
    decreases t
  {
    match t
    case TRep(q) => q == p || LoopIn(q, p)
    case TNot(q) => LoopIn(q, p)
    case TAnd(q) => LoopIn(q, p)
    case TBehind(_, q) => LoopIn(q, p)
    case TSeq(p1, p2) => LoopIn(p1, p) || LoopIn(p2, p)
    case TChoice(p1, p2) => LoopIn(p1, p) || LoopIn(p2, p)
    case _ => false
  }

  /** The body of a refused loop. */
  lemma {:induction false} RefusedBody(d: nat, g: seq<Tree>, t: Tree)
    ensures CheckLoops(d, g, t) <==> exists p :: LoopIn(t, p) && Nullable(g, p, d)
    decreases t
  {
    match t
    case TRep(q) =>
      RefusedBody(d, g, q);
      assert LoopIn(t, q);
    case TNot(q) => RefusedBody(d, g, q);
    case TAnd(q) => RefusedBody(d, g, q);
    case TBehind(_, q) => RefusedBody(d, g, q);
    case TSeq(p1, p2) =>
      RefusedBody(d, g, p1);
      RefusedBody(d, g, p2);
    case TChoice(p1, p2) =>
      RefusedBody(d, g, p1);
      RefusedBody(d, g, p2);
    case _ =>
  }

  /** Without predicates and look-behinds, in sub-grammars too. */
  predicate Straight(t: Tree)
    decreases t
  {
    match t
    case TNot(_) => false
    case TAnd(_) => false
    case TBehind(_, _) => false
    case TRep(p) => Straight(p)
    case TSeq(p1, p2) => Straight(p1) && Straight(p2)
    case TChoice(p1, p2) => Straight(p1) && Straight(p2)
    case TGrammar(rs) => forall k :: 0 <= k < |rs| ==> Straight(rs[k])
    case _ => true
  }

  predicate AllStraight(g: seq<Tree>) { forall r :: 0 <= r < |g| ==> Straight(g[r]) }

  /** On the empty subject such a pattern, where matching ends, succeeds if it may be empty. */
  lemma {:induction false} EmptyMatches(n: nat, f: nat, g: seq<Tree>, t: Tree)
    requires AllStraight(g) && Straight(t) && EmptyIn(n, g, t) && Eval(f, g, t, [], 0) != Out
    ensures Eval(f, g, t, [], 0) == Succ(0)
    decreases n, t, f
  {
    match t
    case TRep(p) => RepEmpty(f, g, t);
    case TSeq(p1, p2) =>
      EmptyMatches(n, f, g, p1);
      EmptyMatches(n, f, g, p2);
    case TChoice(p1, p2) =>
      if EmptyIn(n, g, p1) { EmptyMatches(n, f, g, p1); }
      else if Eval(f, g, p1, [], 0).Fail? { EmptyMatches(n, f, g, p2); }
    case TCall(k) => EmptyMatches(n - 1, f - 1, g, g[k]);
    case TGrammar(rs) => EmptyMatches(n, f, rs, rs[0]);
    case _ =>
  }

  lemma {:induction false} RepEmpty(f: nat, g: seq<Tree>, t: Tree)
    requires t.TRep? && Eval(f, g, t, [], 0) != Out
    ensures Eval(f, g, t, [], 0) == Succ(0)
    decreases f
  {
    if Eval(f, g, t.p, [], 0).Succ? { RepEmpty(f - 1, g, t); }
  }

  ghost predicate EndsOnEmpty(g: seq<Tree>, t: Tree) { exists f: nat :: Eval(f, g, t, [], 0) != Out }

  ghost predicate MatchesEmpty(g: seq<Tree>, t: Tree) { exists f: nat :: Eval(f, g, t, [], 0) == Succ(0) }

  /** Matching the sub-grammars ends on the empty subject. */
  ghost predicate SubsEnd(g: seq<Tree>, t: Tree)
    decreases t
  {
    match t
    case TRep(p) => SubsEnd(g, p)
    case TNot(p) => SubsEnd(g, p)
    case TAnd(p) => SubsEnd(g, p)
    case TBehind(_, p) => SubsEnd(g, p)
    case TSeq(p1, p2) => SubsEnd(g, p1) && SubsEnd(g, p2)
    case TChoice(p1, p2) => SubsEnd(g, p1) && SubsEnd(g, p2)
    case TGrammar(_) => EndsOnEmpty(g, t)
    case _ => true
  }

  /** As they do when they were accepted before. */
  lemma {:induction false} AcceptedSubsEnd(d: nat, g: seq<Tree>, t: Tree)
    requires WellFormed(d, g, t) && AllSure(d, t)
    ensures SubsEnd(g, t)
    decreases t
  {
    match t
    case TRep(p) => AcceptedSubsEnd(d, g, p);
    case TNot(p) => AcceptedSubsEnd(d, g, p);
    case TAnd(p) => AcceptedSubsEnd(d, g, p);
    case TBehind(_, p) => AcceptedSubsEnd(d, g, p);
    case TSeq(p1, p2) =>
      AcceptedSubsEnd(d, g, p1);
      AcceptedSubsEnd(d, g, p2);
    case TChoice(p1, p2) =>
      AcceptedSubsEnd(d, g, p1);
      AcceptedSubsEnd(d, g, p2);
    case TGrammar(_) => var f := GrammarTerminates(d, Nesting(t), g, t, [], 0);
    case _ =>
  }

  /** A pattern of the rules, all of whose loops make progress on the empty subject. */
  ghost predicate Within(g: seq<Tree>, t: Tree) {
    && Straight(t) && CallsIn(|g|, t) && SubsEnd(g, t)
    && (forall k: nat :: Calls(t, k) ==> Used(g, k))
    && (forall p :: LoopIn(t, p) ==> !MatchesEmpty(g, p))
  }

  ghost predicate RulesWithin(d: nat, g: seq<Tree>) {
    forall k: nat :: k < |g| && Used(g, k) ==> Within(g, g[k]) && SureRule(d, g, g[k], 0, false).Nb?
  }

  lemma RepOnce(f: nat, g: seq<Tree>, p: Tree)
    requires Eval(f, g, p, [], 0) != Out && !MatchesEmpty(g, p)
    ensures EndsOnEmpty(g, TRep(p))
  {
    EvalMono(f, f + 1, g, p, [], 0);
    assert Eval(f + 1, g, p, [], 0) == Fail;
    assert Eval(f + 1, g, TRep(p), [], 0) == Succ(0);
  }

  lemma CallEnds(g: seq<Tree>, k: nat)
    requires k < |g| && EndsOnEmpty(g, g[k])
    ensures EndsOnEmpty(g, TCall(k))
  {
    var f: nat :| Eval(f, g, g[k], [], 0) != Out;
    assert Eval(f + 1, g, TCall(k), [], 0) != Out;
  }

  lemma SeqEnds(g: seq<Tree>, p1: Tree, p2: Tree)
    requires EndsOnEmpty(g, p1) && (MatchesEmpty(g, p1) ==> EndsOnEmpty(g, p2))
    ensures EndsOnEmpty(g, TSeq(p1, p2))
  {
    var f1: nat :| Eval(f1, g, p1, [], 0) != Out;
    var f2: nat := 0;
    if Eval(f1, g, p1, [], 0).Succ? {
      assert Eval(f1, g, p1, [], 0) == Succ(0);
      f2 :| Eval(f2, g, p2, [], 0) != Out;
    }
    var f := SeqFuel(g, p1, p2, [], 0, f1, f2);
  }

  lemma ChoiceEnds(g: seq<Tree>, p1: Tree, p2: Tree)
    requires EndsOnEmpty(g, p1) && EndsOnEmpty(g, p2)
    ensures EndsOnEmpty(g, TChoice(p1, p2))
  {
    var f1: nat :| Eval(f1, g, p1, [], 0) != Out;
    var f2: nat :| Eval(f2, g, p2, [], 0) != Out;
    var f := ChoiceFuel(g, p1, p2, [], 0, f1, f2);
  }

  /** In left position of a checked rule matching ends on the empty subject. */
  lemma {:induction false} EndsLeft(d: nat, g: seq<Tree>, t: Tree, npassed: nat, nb: bool)
    requires RulesWithin(d, g) && Within(g, t) && npassed <= MAXRULES && SureRule(d, g, t, npassed, nb).Nb?
    ensures EndsOnEmpty(g, t)
    decreases MAXRULES - npassed, t
  {
    hide RulesWithin, MatchesEmpty, EndsOnEmpty, Used;
    match t
    case TRep(p) =>
      WithinParts(g, t, p);
      EndsLeft(d, g, p, npassed, true);
      assert LoopIn(t, p);
      RepEnds(g, p);
    case TCall(k) =>
      RuleWithin(d, g, k);
      EndsLeft(d, g, g[k], npassed + 1, nb);
      CallEnds(g, k);
    case TSeq(p1, p2) =>
      WithinParts(g, t, p1);
      WithinParts(g, t, p2);
      EndsLeft(d, g, p1, npassed, false);
      if MatchesEmpty(g, p1) {
        MatchedFlag(d, g, p1, npassed);
        EndsLeft(d, g, p2, npassed, nb);
      }
      SeqEnds(g, p1, p2);
    case TChoice(p1, p2) =>
      WithinParts(g, t, p1);
      WithinParts(g, t, p2);
      EndsLeft(d, g, p1, npassed, nb);
      EndsLeft(d, g, p2, npassed, SureRule(d, g, p1, npassed, nb).b);
      ChoiceEnds(g, p1, p2);
    case TGrammar(_) =>
    case _ => AtomEnds(g, t);
  }

  lemma AtomEnds(g: seq<Tree>, t: Tree)
    requires t.TChar? || t.TSet? || t.TAny? || t.TTrue? || t.TFalse?
    ensures EndsOnEmpty(g, t)
  {
    assert Eval(0, g, t, [], 0) != Out;
  }

  lemma RepEnds(g: seq<Tree>, p: Tree)
    requires EndsOnEmpty(g, p) && !MatchesEmpty(g, p)
    ensures EndsOnEmpty(g, TRep(p))
  {
    hide MatchesEmpty;
    var f: nat :| Eval(f, g, p, [], 0) != Out;
    RepOnce(f, g, p);
  }

  lemma MatchedFlag(d: nat, g: seq<Tree>, p: Tree, npassed: nat)
    requires MatchesEmpty(g, p) && SureRule(d, g, p, npassed, false).Nb?
    ensures SureRule(d, g, p, npassed, false).b
  {
    var f: nat :| Eval(f, g, p, [], 0) == Succ(0);
    VerdictSound(f, d, g, p, npassed, false, [], 0);
  }

  lemma RuleWithin(d: nat, g: seq<Tree>, k: nat)
    requires RulesWithin(d, g) && k < |g| && Used(g, k)
    ensures Within(g, g[k]) && SureRule(d, g, g[k], 0, false).Nb?
  {
  }

  lemma WithinParts(g: seq<Tree>, t: Tree, p: Tree)
    requires Within(g, t) && (t == TRep(p) || (t.TSeq? && (t.p1 == p || t.p2 == p)) || (t.TChoice? && (t.p1 == p || t.p2 == p)))
    ensures Within(g, p)
  {
    hide Used, MatchesEmpty, EndsOnEmpty;
    assert forall k: nat :: Calls(p, k) ==> Calls(t, k);
    assert forall q :: LoopIn(p, q) ==> LoopIn(t, q);
  }

  /** And so it does anywhere. */
  lemma {:induction false} EndsAny(d: nat, g: seq<Tree>, t: Tree)
    requires RulesWithin(d, g) && Within(g, t)
    ensures EndsOnEmpty(g, t)
    decreases t
  {
    hide RulesWithin, MatchesEmpty, EndsOnEmpty, Used, SureRule;
    match t
    case TRep(p) =>
      WithinParts(g, t, p);
      EndsAny(d, g, p);
      assert LoopIn(t, p);
      RepEnds(g, p);
    case TCall(k) =>
      RuleWithin(d, g, k);
      EndsLeft(d, g, g[k], 0, false);
      CallEnds(g, k);
    case TSeq(p1, p2) =>
      WithinParts(g, t, p1);
      WithinParts(g, t, p2);
      EndsAny(d, g, p1);
      EndsAny(d, g, p2);
      SeqEnds(g, p1, p2);
    case TChoice(p1, p2) =>
      WithinParts(g, t, p1);
      WithinParts(g, t, p2);
      EndsAny(d, g, p1);
      EndsAny(d, g, p2);
      ChoiceEnds(g, p1, p2);
    case TGrammar(_) =>
    case _ => AtomEnds(g, t);
  }

  lemma {:induction false} LoopParts(g: seq<Tree>, t: Tree, p: Tree)
    requires Within(g, t) && LoopIn(t, p)
    ensures Within(g, p)
    decreases t
  {
    hide Used, MatchesEmpty, EndsOnEmpty;
    var q := match t
      case TRep(q) => q
      case TSeq(p1, p2) => if LoopIn(p1, p) then p1 else p2
      case TChoice(p1, p2) => if LoopIn(p1, p) then p1 else p2
      case _ => t;
    WithinParts(g, t, q);
    if t != TRep(p) { LoopParts(g, q, p); }
  }

  /** What rules are like before their loops are looked at: no predicates, all calls name rules, and
      the sub-grammars, which were built before, can be matched. */
  ghost predicate Plausible(g: seq<Tree>) {
    && 0 < |g| <= 250 && AllStraight(g) && Closed(g) && (forall r :: 0 <= r < |g| ==> SubsEnd(g, g[r]))
  }

  /** A loop is refused only if the body of this or another loop of the grammar matches the empty
      string, unless a rule reaches itself by left calls. */
  lemma RefusedOnlyIfEmpty(d: nat, g: seq<Tree>, k: nat, p: Tree)
    requires Plausible(g) && Answered(d, g)
    requires k < |g| && Used(g, k) && LoopIn(g[k], p) && CheckAux(g, p, PEnullable, d) == Is(true)
    ensures (exists j: nat :: j < |g| && Used(g, j) && LeftRecursive(true, g, j))
      || (exists j: nat, q :: j < |g| && Used(g, j) && LoopIn(g[j], q) && MatchesEmpty(g, q))
  {
    hide SureRule, LeftRecursive, Used, MatchesEmpty, LoopIn, Straight, SubsEnd, CheckAux;
    PassedIff(d, g);
    if (forall j: nat :: j < |g| && Used(g, j) ==> SureRule(d, g, g[j], 0, false).Nb?)
      && !(exists j: nat, q :: j < |g| && Used(g, j) && LoopIn(g[j], q) && MatchesEmpty(g, q))
    {
      forall j: nat | j < |g| && Used(g, j) ensures Within(g, g[j]) && SureRule(d, g, g[j], 0, false).Nb? {
        UsedOnly(g, j);
      }
      assert RulesWithin(d, g);
      LoopParts(g, g[k], p);
      EndsAny(d, g, p);
      TrueMatches(d, g, p);
      assert false;
    }
  }

  lemma UsedOnly(g: seq<Tree>, j: nat)
    requires j < |g|
    ensures forall k: nat :: Calls(g[j], k) ==> Used(g, k)
  {
  }

  lemma TrueMatches(d: nat, g: seq<Tree>, p: Tree)
    requires AllStraight(g) && Straight(p) && EndsOnEmpty(g, p) && CheckAux(g, p, PEnullable, d) == Is(true)
    ensures MatchesEmpty(g, p)
  {
    TrueEmpty(g, p, d);
    var f: nat :| Eval(f, g, p, [], 0) != Out;
    EmptyMatches(d, f, g, p);
  }

  /** A loop whose body matches the empty string, on any subject, is refused. */
  lemma EmptyRefused(d: nat, g: seq<Tree>, t: Tree, p: Tree, f: nat, s: seq<byte>, i: nat)
    requires LoopIn(t, p) && i <= |s| && Eval(f, g, p, s, i) == Succ(i)
    ensures CheckLoops(d, g, t)
  {
    NullableSound(f, g, p, d, s, i);
    RefusedBody(d, g, t);
  }

  /** The search for whether the body of a loop may be empty comes to an end with this room. */
  ghost predicate LoopsAnswered(d: nat, g: seq<Tree>) {
    forall k: nat, p :: k < |g| && LoopIn(g[k], p) ==> CheckAux(g, p, PEnullable, d).Is?
  }

  /** When the source refuses a grammar without predicates, it is for a reason: a rule that reaches
      itself by left calls, or a loop whose body matches the empty string. */
  lemma RefusedForAReason(d: nat, g: seq<Tree>)
    requires Plausible(g) && Answered(d, g) && LoopsAnswered(d, g) && !VerifyGrammar(d, g)
    ensures (exists j: nat :: j < |g| && Used(g, j) && LeftRecursive(true, g, j))
      || (exists j: nat, q :: j < |g| && Used(g, j) && LoopIn(g[j], q) && MatchesEmpty(g, q))
  {
    hide SureRule, VerifyRule, LeftRecursive, Used, MatchesEmpty, LoopIn, SubsEnd, CheckAux, CheckLoops, AllStraight;
    PassedIff(d, g);
    var k: nat :| k < |g| && Used(g, k) && !(VerifyRule(d, g, g[k], 0, false).Nb? && !CheckLoops(d, g, g[k]));
    if SureRule(d, g, g[k], 0, false).Nb? {
      SureIsVerified(d, g, g[k], 0, false, false);
      RefusedBody(d, g, g[k]);
      var p :| LoopIn(g[k], p) && Nullable(g, p, d);
      AnsweredTrue(d, g, p);
      RefusedOnlyIfEmpty(d, g, k, p);
    }
  }
}
