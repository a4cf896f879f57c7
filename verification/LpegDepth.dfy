/**
 * How deep the analyses of the compiler go. They follow calls without a limit, so on some grammars
 * they never answer; one that answers at all does so within a number of nested calls that can be
 * read off the pattern.
 */
module LpegDepth {
  import opened LpegTree
  import opened LpegAnalysis
  import opened LpegVm
  import opened LpegCodegen
  import opened Growth

  datatype Query = IsNullable | IsNofail | FirstOf | IsHeadfail | Length

  function QueryOf(x: nat): Query {
    if x == 0 then IsNullable else if x == 1 then IsNofail else if x == 2 then FirstOf
    else if x == 3 then IsHeadfail else Length
  }

  function Number(q: Query): (x: nat)
    ensures x < 5 && QueryOf(x) == q
  {
    match q
    case IsNullable => 0
    case IsNofail => 1
    case FirstOf => 2
    case IsHeadfail => 3
    case Length => 4
  }

  /** The analysis has an answer when there is room for `n` nested calls. */
  predicate Finishes(q: Query, g: seq<Tree>, t: Tree, n: nat) {
    match q
    case IsNullable => CheckAux(g, t, PEnullable, n).Is?
    case IsNofail => CheckAux(g, t, PEnofail, n).Is?
    case FirstOf => FirstSet(g, t, FullSet, n).Is?
    case IsHeadfail => HeadTest(g, t, n).Is?
    case Length => FixedLen(g, t, n) >= 0
  }

  // ------------------------------------------------------------------ more room, same answer

  lemma {:induction false} CheckMore(g: seq<Tree>, t: Tree, pred: Pred, n: nat, m: nat)
    requires n <= m && CheckAux(g, t, pred, n).Is?
    ensures CheckAux(g, t, pred, m) == CheckAux(g, t, pred, n)
    decreases n, t
  {
    match t
    case TAnd(p) => if pred.PEnofail? { CheckMore(g, p, pred, n, m); }
    case TSeq(p1, p2) =>
      CheckMore(g, p1, pred, n, m);
      if CheckAux(g, p1, pred, n) == Is(true) { CheckMore(g, p2, pred, n, m); }
    case TChoice(p1, p2) =>
      CheckMore(g, p2, pred, n, m);
      if CheckAux(g, p2, pred, n) == Is(false) { CheckMore(g, p1, pred, n, m); }
    case TGrammar(rs) => CheckMore(rs, rs[0], pred, n, m);
    case TCall(k) => if k < |g| { CheckMore(g, g[k], pred, n - 1, m - 1); }
    case _ =>
  }

  lemma {:induction false} FirstMore(g: seq<Tree>, t: Tree, follow: set<byte>, n: nat, m: nat)
    requires n <= m && FirstSet(g, t, follow, n).Is?
    ensures FirstSet(g, t, follow, m) == FirstSet(g, t, follow, n)
    decreases n, t
  {
    match t
    case TChoice(p1, p2) =>
      FirstMore(g, p1, follow, n, m);
      FirstMore(g, p2, follow, n, m);
    case TSeq(p1, p2) =>
      CheckMore(g, p1, PEnullable, n, m);
      if CheckAux(g, p1, PEnullable, n) == Is(true) {
        FirstMore(g, p2, follow, n, m);
        FirstMore(g, p1, FirstSet(g, p2, follow, n).v.cs, n, m);
      } else {
        FirstMore(g, p1, FullSet, n, m);
      }
    case TRep(p) => FirstMore(g, p, follow, n, m);
    case TAnd(p) => FirstMore(g, p, follow, n, m);
    case TNot(p) => if ToCharset(p).NoSet? { FirstMore(g, p, follow, n, m); }
    case TBehind(_, p) => FirstMore(g, p, follow, n, m);
    case TGrammar(rs) => FirstMore(rs, rs[0], follow, n, m);
    case TCall(k) => FirstMore(g, g[k], follow, n - 1, m - 1);
    case _ =>
  }

  lemma {:induction false} HeadMore(g: seq<Tree>, t: Tree, n: nat, m: nat)
    requires n <= m && HeadTest(g, t, n).Is?
    ensures HeadTest(g, t, m) == HeadTest(g, t, n)
    decreases n, t
  {
    match t
    case TSeq(p1, p2) =>
      CheckMore(g, p2, PEnofail, n, m);
      if CheckAux(g, p2, PEnofail, n) == Is(true) { HeadMore(g, p1, n, m); }
    case TChoice(p1, p2) =>
      HeadMore(g, p1, n, m);
      if HeadTest(g, p1, n) == Is(true) { HeadMore(g, p2, n, m); }
    case TAnd(p) => HeadMore(g, p, n, m);
    case TGrammar(rs) => HeadMore(rs, rs[0], n, m);
    case TCall(k) => HeadMore(g, g[k], n - 1, m - 1);
    case _ =>
  }

  lemma {:induction false} LengthMore(g: seq<Tree>, t: Tree, n: nat, m: nat)
    requires n <= m && FixedLen(g, t, n) >= 0
    ensures FixedLen(g, t, m) == FixedLen(g, t, n)
    decreases n, t
  {
    match t
    case TSeq(p1, p2) =>
      LengthMore(g, p1, n, m);
      LengthMore(g, p2, n, m);
    case TChoice(p1, p2) =>
      LengthMore(g, p1, n, m);
      LengthMore(g, p2, n, m);
    case TGrammar(rs) => LengthMore(rs, rs[0], n, m);
    case TCall(k) => LengthMore(g, g[k], n - 1, m - 1);
    case _ =>
  }

  lemma FinishesMore(q: Query, g: seq<Tree>, t: Tree, n: nat, m: nat)
    requires n <= m && Finishes(q, g, t, n)
    ensures Finishes(q, g, t, m)
  {
    match q
    case IsNullable => CheckMore(g, t, PEnullable, n, m);
    case IsNofail => CheckMore(g, t, PEnofail, n, m);
    case FirstOf => FirstMore(g, t, FullSet, n, m);
    case IsHeadfail => HeadMore(g, t, n, m);
    case Length => LengthMore(g, t, n, m);
  }

  // ------------------------------------------------------------------ how much room is enough

  function Larger(x: nat, y: nat): nat { if x < y then y else x }

  /** Room for every analysis inside the pattern: five analyses may each pass every rule once. */
  function Depth(t: Tree): nat
    decreases t, 0
  {
    match t
    case TRep(p) => Depth(p)
    case TNot(p) => Depth(p)
    case TAnd(p) => Depth(p)
    case TBehind(_, p) => Depth(p)
    case TSeq(p1, p2) => Larger(Depth(p1), Depth(p2))
    case TChoice(p1, p2) => Larger(Depth(p1), Depth(p2))
    case TGrammar(rs) => 5 * |rs| + 1 + DepthAll(rs)
    case _ => 0
  }

  function DepthAll(ts: seq<Tree>): (n: nat)
    ensures forall k :: 0 <= k < |ts| ==> Depth(ts[k]) <= n
    decreases ts, 1
  {
    if ts == [] then 0 else
    var n := DepthAll(ts[1..]);
    assert forall k :: 1 <= k < |ts| ==> ts[k] == ts[1..][k - 1];
    Larger(Depth(ts[0]), n)
  }

  /** Room for an analysis of a pattern that stands in grammar `g`. */
  function Room(g: seq<Tree>, t: Tree): nat { 5 * |g| + 1 + Larger(DepthAll(g), Depth(t)) }

  /** What needs no more than `m` calls from a rule needs no more than `n`. */
  ghost predicate RulesDown(g: seq<Tree>, n: nat, m: nat) {
    forall q: Query, k: nat :: k < |g| && Finishes(q, g, g[k], m) ==> Finishes(q, g, g[k], n)
  }

  lemma {:induction false} CheckDown(h: nat, g: seq<Tree>, t: Tree, pred: Pred, n: nat, m: nat)
    requires 1 <= n <= m && Depth(t) <= h <= n && RulesDown(g, n - 1, m - 1)
    requires CheckAux(g, t, pred, m).Is?
    ensures CheckAux(g, t, pred, n) == CheckAux(g, t, pred, m)
    decreases h, 0, t
  {
    match t
    case TAnd(p) => if pred.PEnofail? { CheckDown(h, g, p, pred, n, m); }
    case TSeq(p1, p2) =>
      CheckDown(h, g, p1, pred, n, m);
      if CheckAux(g, p1, pred, m) == Is(true) { CheckDown(h, g, p2, pred, n, m); }
    case TChoice(p1, p2) =>
      CheckDown(h, g, p2, pred, n, m);
      if CheckAux(g, p2, pred, m) == Is(false) { CheckDown(h, g, p1, pred, n, m); }
    case TGrammar(rs) =>
      Final(DepthAll(rs), if pred.PEnullable? then IsNullable else IsNofail, rs, rs[0], n, m);
      CheckMore(rs, rs[0], pred, n, m);
    case TCall(k) =>
      if k < |g| {
        var q := if pred.PEnullable? then IsNullable else IsNofail;
        assert Finishes(q, g, g[k], m - 1);
        CheckMore(g, g[k], pred, n - 1, m - 1);
      }
    case _ =>
  }

  lemma {:induction false} FirstDown(h: nat, g: seq<Tree>, t: Tree, follow: set<byte>, n: nat, m: nat)
    requires 1 <= n <= m && Depth(t) <= h <= n && RulesDown(g, n - 1, m - 1)
    requires FirstSet(g, t, follow, m).Is?
    ensures FirstSet(g, t, follow, n) == FirstSet(g, t, follow, m)
    decreases h, 0, t
  {
    match t
    case TChoice(p1, p2) =>
      FirstDown(h, g, p1, follow, n, m);
      FirstDown(h, g, p2, follow, n, m);
    case TSeq(p1, p2) =>
      CheckDown(h, g, p1, PEnullable, n, m);
      if CheckAux(g, p1, PEnullable, m) == Is(true) {
        FirstDown(h, g, p2, follow, n, m);
        FirstDown(h, g, p1, FirstSet(g, p2, follow, m).v.cs, n, m);
      } else {
        FirstDown(h, g, p1, FullSet, n, m);
      }
    case TRep(p) => FirstDown(h, g, p, follow, n, m);
    case TAnd(p) => FirstDown(h, g, p, follow, n, m);
    case TNot(p) => if ToCharset(p).NoSet? { FirstDown(h, g, p, follow, n, m); }
    case TBehind(_, p) => FirstDown(h, g, p, follow, n, m);
    case TGrammar(rs) =>
      FirstEnds(rs, rs[0], follow, FullSet, m);
      Final(DepthAll(rs), FirstOf, rs, rs[0], n, m);
      FirstEnds(rs, rs[0], follow, FullSet, n);
      FirstMore(rs, rs[0], follow, n, m);
    case TCall(k) =>
      FirstEnds(g, g[k], follow, FullSet, m - 1);
      assert Finishes(FirstOf, g, g[k], m - 1);
      FirstEnds(g, g[k], follow, FullSet, n - 1);
      FirstMore(g, g[k], follow, n - 1, m - 1);
    case _ =>
  }

  lemma {:induction false} HeadDown(h: nat, g: seq<Tree>, t: Tree, n: nat, m: nat)
    requires 1 <= n <= m && Depth(t) <= h <= n && RulesDown(g, n - 1, m - 1)
    requires HeadTest(g, t, m).Is?
    ensures HeadTest(g, t, n) == HeadTest(g, t, m)
    decreases h, 0, t
  {
    match t
    case TSeq(p1, p2) =>
      CheckDown(h, g, p2, PEnofail, n, m);
      if CheckAux(g, p2, PEnofail, m) == Is(true) { HeadDown(h, g, p1, n, m); }
    case TChoice(p1, p2) =>
      HeadDown(h, g, p1, n, m);
      if HeadTest(g, p1, m) == Is(true) { HeadDown(h, g, p2, n, m); }
    case TAnd(p) => HeadDown(h, g, p, n, m);
    case TGrammar(rs) =>
      Final(DepthAll(rs), IsHeadfail, rs, rs[0], n, m);
      HeadMore(rs, rs[0], n, m);
    case TCall(k) =>
      assert Finishes(IsHeadfail, g, g[k], m - 1);
      HeadMore(g, g[k], n - 1, m - 1);
    case _ =>
  }

  lemma {:induction false} LengthDown(h: nat, g: seq<Tree>, t: Tree, n: nat, m: nat)
    requires 1 <= n <= m && Depth(t) <= h <= n && RulesDown(g, n - 1, m - 1)
    requires FixedLen(g, t, m) >= 0
    ensures FixedLen(g, t, n) == FixedLen(g, t, m)
    decreases h, 0, t
  {
    match t
    case TSeq(p1, p2) =>
      LengthDown(h, g, p1, n, m);
      LengthDown(h, g, p2, n, m);
    case TChoice(p1, p2) =>
      LengthDown(h, g, p1, n, m);
      LengthDown(h, g, p2, n, m);
    case TGrammar(rs) =>
      Final(DepthAll(rs), Length, rs, rs[0], n, m);
      LengthMore(rs, rs[0], n, m);
    case TCall(k) =>
      assert Finishes(Length, g, g[k], m - 1);
      LengthMore(g, g[k], n - 1, m - 1);
    case _ =>
  }

  lemma FinishesDown(h: nat, q: Query, g: seq<Tree>, t: Tree, n: nat, m: nat)
    requires 1 <= n <= m && Depth(t) <= h <= n && RulesDown(g, n - 1, m - 1) && Finishes(q, g, t, m)
    ensures Finishes(q, g, t, n)
    decreases h, 1
  {
    match q
    case IsNullable => CheckDown(h, g, t, PEnullable, n, m);
    case IsNofail => CheckDown(h, g, t, PEnofail, n, m);
    case FirstOf => FirstDown(h, g, t, FullSet, n, m);
    case IsHeadfail => HeadDown(h, g, t, n, m);
    case Length => LengthDown(h, g, t, n, m);
  }

  predicate AnswersAt(g: seq<Tree>, x: nat, n: nat) { x < 5 * |g| && Finishes(QueryOf(x % 5), g, g[x / 5], n) }

  /** The pairs of an analysis and a rule that answer with room for `n` calls. */
  ghost function Answers(g: seq<Tree>, n: nat): set<nat> { set x: nat | x < 5 * |g| && AnswersAt(g, x, n) }

  lemma InAnswers(q: Query, g: seq<Tree>, k: nat, n: nat)
    requires k < |g|
    ensures Finishes(q, g, g[k], n) <==> 5 * k + Number(q) in Answers(g, n)
  {
    hide Finishes;
    assert AnswersAt(g, 5 * k + Number(q), n) <==> Finishes(q, g, g[k], n);
  }

  lemma RulesDownIff(g: seq<Tree>, n: nat, m: nat)
    ensures RulesDown(g, n, m) <==> Answers(g, m) <= Answers(g, n)
  {
    hide Finishes, Answers;
    if RulesDown(g, n, m) {
      forall x | x in Answers(g, m) ensures x in Answers(g, n) {
        AnswerMeans(g, x, m);
        AnswerMeans(g, x, n);
        assert Finishes(QueryOf(x % 5), g, g[x / 5], m);
      }
    }
    if Answers(g, m) <= Answers(g, n) {
      forall q: Query, k: nat | k < |g| && Finishes(q, g, g[k], m) ensures Finishes(q, g, g[k], n) {
        InAnswers(q, g, k, m);
        InAnswers(q, g, k, n);
      }
    }
  }

  lemma AnswerMeans(g: seq<Tree>, x: nat, n: nat)
    ensures x in Answers(g, n) <==> AnswersAt(g, x, n)
  {
    hide Finishes;
  }

  lemma AnswersGrow(g: seq<Tree>, n: nat)
    ensures Answers(g, n) <= Answers(g, n + 1)
  {
    hide Finishes;
    forall x | x in Answers(g, n) ensures x in Answers(g, n + 1) {
      FinishesMore(QueryOf(x % 5), g, g[x / 5], n, n + 1);
      assert AnswersAt(g, x, n + 1);
    }
  }

  lemma AnswersStand(h: nat, g: seq<Tree>, n: nat)
    requires DepthAll(g) <= h <= n && Answers(g, n) == Answers(g, n + 1)
    ensures Answers(g, n + 1) == Answers(g, n + 2)
    decreases h, 2
  {
    hide Finishes, Answers, AnswersAt;
    RulesDownIff(g, n, n + 1);
    AnswersGrow(g, n + 1);
    var n1, n2 := n + 1, n + 2;
    forall q: Query, k: nat | k < |g| && Finishes(q, g, g[k], n2) ensures Finishes(q, g, g[k], n1) {
      FinishesDown(h, q, g, g[k], n1, n2);
    }
    RulesDownIff(g, n1, n2);
  }

  lemma AnswersFinal(h: nat, g: seq<Tree>, n: nat)
    requires DepthAll(g) <= h && 5 * |g| + h <= n
    ensures Answers(g, n) == Answers(g, h + 5 * |g|)
    decreases h, 3
  {
    hide Answers;
    var e := (i: nat) => Answers(g, h + i);
    forall i: nat ensures e(i) <= e(i + 1) { AnswersGrow(g, h + i); }
    forall i: nat | e(i) == e(i + 1) ensures e(i + 1) == e(i + 2) { AnswersStand(h, g, h + i); }
    forall i: nat ensures forall x :: x in e(i) ==> x < 5 * |g| { AnswersBelow(g, h + i); }
    Stands(e, 5 * |g|, n - h);
    assert e(n - h) == Answers(g, n);
  }

  /** An analysis that answers at all answers within the room that can be read off the pattern. */
  lemma Final(h: nat, q: Query, g: seq<Tree>, t: Tree, n: nat, m: nat)
    requires DepthAll(g) <= h && Depth(t) <= h && 5 * |g| + 1 + h <= n && Finishes(q, g, t, m)
    ensures Finishes(q, g, t, n)
    decreases h, 4
  {
    hide Finishes, Answers, Depth, DepthAll;
    if m <= n {
      FinishesMore(q, g, t, m, n);
    } else {
      AnswersFinal(h, g, n - 1);
      AnswersFinal(h, g, m - 1);
      RulesDownIff(g, n - 1, m - 1);
      FinishesDown(h, q, g, t, n, m);
    }
  }

  lemma AnswersBelow(g: seq<Tree>, n: nat)
    ensures forall x :: x in Answers(g, n) ==> x < 5 * |g|
  {}

  /** In the style of a decision procedure: enough room is known beforehand. */
  lemma FinishesSoon(q: Query, g: seq<Tree>, t: Tree)
    ensures (exists n: nat :: Finishes(q, g, t, n)) <==> Finishes(q, g, t, Room(g, t))
  {
    hide Finishes;
    if exists n: nat :: Finishes(q, g, t, n) {
      var n: nat :| Finishes(q, g, t, n);
      Final(Larger(DepthAll(g), Depth(t)), q, g, t, Room(g, t), n);
    }
  }

  // ------------------------------------------------------------------ fixedlen

  /** `fixedlen` alone stops by itself: it marks the calls on its way and takes a pattern that comes
      back to a marked one for one of no fixed length. The marks are kept by rule: coming to a rule a
      second time means coming to the same calls. */
  function Marked(g: seq<Tree>, t: Tree, seen: set<nat>, n: nat): (r: int)
    ensures r >= -1
    decreases n, t
  {
    match t
    case TChar(_) => 1
    case TSet(_) => 1
    case TAny => 1
    case TRep(_) => -1
    case TGrammar(rs) => if rs == [] then -1 else Marked(rs, rs[0], {}, n)
    case TCall(k) => if n == 0 || k >= |g| || k in seen then -1 else Marked(g, g[k], seen + {k}, n - 1)
    case TSeq(p1, p2) =>
      var n1 := Marked(g, p1, seen, n);
      if n1 < 0 then -1 else
      var n2 := Marked(g, p2, seen, n);
      if n2 < 0 then -1 else n1 + n2
    case TChoice(p1, p2) =>
      var n1, n2 := Marked(g, p1, seen, n), Marked(g, p2, seen, n);
      if n1 != n2 || n1 < 0 then -1 else n1
    case _ => 0
  }

  lemma {:induction false} MarkedIsLength(g: seq<Tree>, t: Tree, seen: set<nat>, n: nat)
    requires Marked(g, t, seen, n) >= 0
    ensures FixedLen(g, t, n) == Marked(g, t, seen, n)
    decreases n, t
  {
    match t
    case TGrammar(rs) => MarkedIsLength(rs, rs[0], {}, n);
    case TCall(k) => MarkedIsLength(g, g[k], seen + {k}, n - 1);
    case TSeq(p1, p2) =>
      MarkedIsLength(g, p1, seen, n);
      MarkedIsLength(g, p2, seen, n);
    case TChoice(p1, p2) =>
      MarkedIsLength(g, p1, seen, n);
      MarkedIsLength(g, p2, seen, n);
    case _ =>
  }

  /** The least room in which the length of a rule is found. */
  lemma {:induction false} LeastRoom(g: seq<Tree>, t: Tree, n: nat) returns (m: nat)
    requires FixedLen(g, t, n) >= 0
    ensures m <= n && FixedLen(g, t, m) == FixedLen(g, t, n) && (m == 0 || FixedLen(g, t, m - 1) == -1)
    decreases n
  {
    m := n;
    if n > 0 && FixedLen(g, t, n - 1) >= 0 {
      LengthMore(g, t, n - 1, n);
      m := LeastRoom(g, t, n - 1);
    }
  }

  /** A pattern of fixed length never comes back to a rule that is still being looked at: those need
      more room than is left. */
  lemma {:induction false} LengthIsMarked(g: seq<Tree>, t: Tree, seen: set<nat>, n: nat, n': nat)
    requires n <= n' && FixedLen(g, t, n) >= 0
    requires forall j :: j in seen && j < |g| && n > 0 ==> FixedLen(g, g[j], n - 1) == -1
    ensures Marked(g, t, seen, n') == FixedLen(g, t, n)
    decreases n, t
  {
    match t
    case TGrammar(rs) => LengthIsMarked(rs, rs[0], {}, n, n');
    case TCall(k) =>
      var m := LeastRoom(g, g[k], n - 1);
      forall j | j in seen + {k} && j < |g| && m > 0 ensures FixedLen(g, g[j], m - 1) == -1 {
        if FixedLen(g, g[j], m - 1) >= 0 { LengthMore(g, g[j], m - 1, n - 1); }
      }
      LengthIsMarked(g, g[k], seen + {k}, m, n' - 1);
    case TSeq(p1, p2) =>
      LengthIsMarked(g, p1, seen, n, n');
      LengthIsMarked(g, p2, seen, n, n');
    case TChoice(p1, p2) =>
      LengthIsMarked(g, p1, seen, n, n');
      LengthIsMarked(g, p2, seen, n, n');
    case _ =>
  }

  /** So bounding the depth of calls gives what marking them gives. */
  lemma FixedLenMarks(g: seq<Tree>, t: Tree, n: nat)
    ensures FixedLen(g, t, n) == Marked(g, t, {}, n)
  {
    if FixedLen(g, t, n) >= 0 {
      LengthIsMarked(g, t, {}, n, n);
    } else if Marked(g, t, {}, n) >= 0 {
      MarkedIsLength(g, t, {}, n);
    }
  }
}
