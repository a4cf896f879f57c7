/**
 * The static analyses of the LPeg compiler and what each of them promises about matching.
 *
 * `d` is the depth of calls there is room for. The predicates and functions with `d` answer for an
 * analysis that needs more with a cautious value, so every soundness lemma holds for every `d`.
 */
module LpegAnalysis {
  import opened LpegTree

  datatype Pred = PEnullable | PEnofail

  const MAXBEHIND := 255

  datatype OptSet = NoSet | YesSet(cs: set<byte>)

  function ToCharset(t: Tree): OptSet {
    match t
    case TSet(cs) => YesSet(cs)
    case TChar(c) => YesSet({c})
    case TAny => YesSet(FullSet)
    case _ => NoSet
  }

  /** An analysis calls itself for every call it follows, without a limit. `n` is how many nested
      calls there is room for on the stack; one that needs more has no answer. */
  datatype Ans<T> = Deeper | Is(v: T)

  function CheckAux(g: seq<Tree>, t: Tree, pred: Pred, n: nat): Ans<bool>
    decreases n, t
  {
    match t
    case TChar(_) => Is(false)
    case TSet(_) => Is(false)
    case TAny => Is(false)
    case TFalse => Is(false)
    case TRep(_) => Is(true)
    case TTrue => Is(true)
    case TNot(_) => Is(pred.PEnullable?)
    case TBehind(_, _) => Is(pred.PEnullable?)
    case TAnd(p) => if pred.PEnullable? then Is(true) else CheckAux(g, p, pred, n)
    case TSeq(p1, p2) =>
      var r := CheckAux(g, p1, pred, n);
      if r == Is(true) then CheckAux(g, p2, pred, n) else r
    case TChoice(p1, p2) =>
      var r := CheckAux(g, p2, pred, n);
      if r == Is(false) then CheckAux(g, p1, pred, n) else r
    case TGrammar(rs) => if rs == [] then Deeper else CheckAux(rs, rs[0], pred, n)
    case TCall(k) =>
      // a call without a rule is open: the grammar around it is still to come
      if k >= |g| then Is(false) else if n == 0 then Deeper else CheckAux(g, g[k], pred, n - 1)
  }

  /** Where there is no answer the two predicates take the cautious side. */
  predicate Nullable(g: seq<Tree>, t: Tree, d: nat) { CheckAux(g, t, PEnullable, d) != Is(false) }

  predicate NoFail(g: seq<Tree>, t: Tree, d: nat) { CheckAux(g, t, PEnofail, d) == Is(true) }

  /** Number of characters every match consumes, or -1. A recursive rule runs into the bound, where
      the source finds its own mark. */
  function FixedLen(g: seq<Tree>, t: Tree, d: nat): (n: int)
    ensures n >= -1
    decreases d, t
  {
    match t
    case TChar(_) => 1
    case TSet(_) => 1
    case TAny => 1
    case TFalse => 0
    case TTrue => 0
    case TNot(_) => 0
    case TAnd(_) => 0
    case TBehind(_, _) => 0
    case TRep(_) => -1
    case TGrammar(rs) => if rs == [] then -1 else FixedLen(rs, rs[0], d)
    case TCall(k) => if d == 0 || k >= |g| then -1 else FixedLen(g, g[k], d - 1)
    case TSeq(p1, p2) =>
      var n1 := FixedLen(g, p1, d);
      if n1 < 0 then -1 else
      var n2 := FixedLen(g, p2, d);
      if n2 < 0 then -1 else n1 + n2
    case TChoice(p1, p2) =>
      var n1, n2 := FixedLen(g, p1, d), FixedLen(g, p2, d);
      if n1 != n2 || n1 < 0 then -1 else n1
  }

  /** First set and whether the pattern accepts the empty string at the end of the subject. */
  datatype First = First(cs: set<byte>, empty: bool)

  function FirstSet(g: seq<Tree>, t: Tree, follow: set<byte>, n: nat): Ans<First>
    decreases n, t
  {
    match t
    case TChar(c) => Is(First({c}, false))
    case TSet(cs) => Is(First(cs, false))
    case TAny => Is(First(FullSet, false))
    case TTrue => Is(First(follow, true))
    case TFalse => Is(First({}, false))
    case TChoice(p1, p2) =>
      var r1, r2 := FirstSet(g, p1, follow, n), FirstSet(g, p2, follow, n);
      if r1.Is? && r2.Is? then Is(First(r1.v.cs + r2.v.cs, r1.v.empty || r2.v.empty)) else Deeper
    case TSeq(p1, p2) =>
      (match CheckAux(g, p1, PEnullable, n)
       case Deeper => Deeper
       case Is(false) => FirstSet(g, p1, FullSet, n)
       case Is(true) =>
         match FirstSet(g, p2, follow, n)
         case Deeper => Deeper
         case Is(f2) =>
           match FirstSet(g, p1, f2.cs, n)
           case Deeper => Deeper
           case Is(f1) => Is(First(f1.cs, f1.empty && f2.empty)))
    case TRep(p) =>
      var r := FirstSet(g, p, follow, n);
      if r.Is? then Is(First(r.v.cs + follow, true)) else Deeper
    case TGrammar(rs) => if rs == [] then Deeper else FirstSet(rs, rs[0], follow, n)
    case TCall(k) => if n == 0 || k >= |g| then Deeper else FirstSet(g, g[k], follow, n - 1)
    case TAnd(p) =>
      var r := FirstSet(g, p, follow, n);
      if r.Is? then Is(First(r.v.cs * follow, r.v.empty)) else Deeper
    case TNot(p) =>
      // the set of the body is computed, and used only when the body is a set
      (match ToCharset(p)
       case YesSet(cs) => Is(First(FullSet - cs, true))
       case NoSet => if FirstSet(g, p, follow, n).Is? then Is(First(follow, true)) else Deeper)
    case TBehind(_, p) => if FirstSet(g, p, follow, n).Is? then Is(First(follow, true)) else Deeper
  }

  function GetFirst(g: seq<Tree>, t: Tree, follow: set<byte>, d: nat): First {
    match FirstSet(g, t, follow, d)
    case Is(f) => f
    case Deeper => First(FullSet, true)
  }

  function HeadTest(g: seq<Tree>, t: Tree, n: nat): Ans<bool>
    decreases n, t
  {
    match t
    case TChar(_) => Is(true)
    case TSet(_) => Is(true)
    case TAny => Is(true)
    case TFalse => Is(true)
    case TTrue => Is(false)
    case TRep(_) => Is(false)
    case TNot(_) => Is(false)
    case TBehind(_, _) => Is(false)
    case TGrammar(rs) => if rs == [] then Deeper else HeadTest(rs, rs[0], n)
    case TAnd(p) => HeadTest(g, p, n)
    case TCall(k) => if n == 0 || k >= |g| then Deeper else HeadTest(g, g[k], n - 1)
    case TSeq(p1, p2) =>
      var r := CheckAux(g, p2, PEnofail, n);
      if r == Is(true) then HeadTest(g, p1, n) else r
    case TChoice(p1, p2) =>
      var r := HeadTest(g, p1, n);
      if r == Is(true) then HeadTest(g, p2, n) else r
  }

  /** Always asked together with the first set. */
  predicate HeadFail(g: seq<Tree>, t: Tree, d: nat) { HeadTest(g, t, d) == Is(true) && FirstSet(g, t, FullSet, d).Is? }

  predicate NeedFollow(t: Tree) {
    match t
    case TChoice(_, _) => true
    case TRep(_) => true
    case TSeq(_, p2) => NeedFollow(p2)
    case _ => false
  }

  /** A pattern that can match the empty string is never reported as one that cannot. */
  lemma {:induction false} NullableSound(f: nat, g: seq<Tree>, t: Tree, d: nat, s: seq<byte>, i: nat)
    requires i <= |s| && Eval(f, g, t, s, i) == Succ(i)
    ensures Nullable(g, t, d)
    decreases f, t
  {
    match t
    case TSeq(p1, p2) =>
      NullableSound(f, g, p1, d, s, i);
      NullableSound(f, g, p2, d, s, i);
    case TChoice(p1, p2) =>
      if Eval(f, g, p1, s, i).Fail? {
        NullableSound(f, g, p2, d, s, i);
      } else {
        NullableSound(f, g, p1, d, s, i);
      }
    case TCall(k) => if d > 0 { NullableSound(f - 1, g, g[k], d - 1, s, i); }
    case TGrammar(rs) => NullableSound(f, rs, rs[0], d, s, i);
    case _ =>
  }

  lemma {:induction false} NoFailSound(f: nat, g: seq<Tree>, t: Tree, d: nat, s: seq<byte>, i: nat)
    requires i <= |s| && NoFail(g, t, d)
    ensures Eval(f, g, t, s, i) != Fail
    decreases f, t
  {
    match t
    case TRep(p) =>
      if f > 0 {
        var r := Eval(f, g, p, s, i);
        if r.Succ? { NoFailSound(f - 1, g, t, d, s, r.pos); }
      }
    case TSeq(p1, p2) =>
      NoFailSound(f, g, p1, d, s, i);
      var r := Eval(f, g, p1, s, i);
      if r.Succ? { NoFailSound(f, g, p2, d, s, r.pos); }
    case TChoice(p1, p2) =>
      if NoFail(g, p2, d) { NoFailSound(f, g, p2, d, s, i); } else { NoFailSound(f, g, p1, d, s, i); }
    case TAnd(p) => NoFailSound(f, g, p, d, s, i);
    case TCall(k) => if f > 0 { NoFailSound(f - 1, g, g[k], d - 1, s, i); }
    case TGrammar(rs) => NoFailSound(f, rs, rs[0], d, s, i);
    case _ =>
  }

  lemma {:induction false} FixedLenSound(f: nat, g: seq<Tree>, t: Tree, d: nat, s: seq<byte>, i: nat)
    requires i <= |s| && FixedLen(g, t, d) >= 0 && Eval(f, g, t, s, i).Succ?
    ensures Eval(f, g, t, s, i).pos == i + FixedLen(g, t, d)
    decreases f, t
  {
    match t
    case TSeq(p1, p2) =>
      FixedLenSound(f, g, p1, d, s, i);
      FixedLenSound(f, g, p2, d, s, Eval(f, g, p1, s, i).pos);
    case TChoice(p1, p2) =>
      if Eval(f, g, p1, s, i).Fail? {
        FixedLenSound(f, g, p2, d, s, i);
      } else {
        FixedLenSound(f, g, p1, d, s, i);
      }
    case TCall(k) => FixedLenSound(f - 1, g, g[k], d - 1, s, i);
    case TGrammar(rs) => FixedLenSound(f, rs, rs[0], d, s, i);
    case _ =>
  }

  /** What a first set promises about a pattern that is tried in front of character `s[i]`. */
  predicate Rejects(r: Res, i: nat, c: byte, follow: set<byte>) {
    r == Out || r == Fail || (r == Succ(i) && c !in follow)
  }

  /** A character outside the first set: the pattern fails, or matches nothing and passes the
      character on to a continuation that cannot take it. */
  lemma FirstSound(f: nat, g: seq<Tree>, t: Tree, follow: set<byte>, d: nat, s: seq<byte>, i: nat)
    requires i < |s| && s[i] !in GetFirst(g, t, follow, d).cs
    ensures Rejects(Eval(f, g, t, s, i), i, s[i], follow)
  {
    InFull({s[i]});
    FirstSetSound(f, g, t, follow, d, s, i);
  }

  lemma {:induction false} FirstSetSound(f: nat, g: seq<Tree>, t: Tree, follow: set<byte>, n: nat, s: seq<byte>, i: nat)
    requires i < |s| && FirstSet(g, t, follow, n).Is? && s[i] !in FirstSet(g, t, follow, n).v.cs
    ensures Rejects(Eval(f, g, t, s, i), i, s[i], follow)
    decreases f, t
  {
    match t
    case TRep(p) =>
      if f > 0 {
        FirstSetSound(f, g, p, follow, n, s, i);
        if Eval(f, g, p, s, i) == Succ(i) { FirstSetSound(f - 1, g, t, follow, n, s, i); }
      }
    case TSeq(p1, p2) =>
      if CheckAux(g, p1, PEnullable, n) == Is(false) {
        FirstSetSound(f, g, p1, FullSet, n, s, i);
        InFull({s[i]});
      } else {
        FirstSetSound(f, g, p1, FirstSet(g, p2, follow, n).v.cs, n, s, i);
        if Eval(f, g, p1, s, i) == Succ(i) { FirstSetSound(f, g, p2, follow, n, s, i); }
      }
    case TChoice(p1, p2) =>
      FirstSetSound(f, g, p1, follow, n, s, i);
      FirstSetSound(f, g, p2, follow, n, s, i);
    case TAnd(p) =>
      if s[i] in follow { FirstSetSound(f, g, p, follow, n, s, i); }
    case TCall(k) => if f > 0 { FirstSetSound(f - 1, g, g[k], follow, n - 1, s, i); }
    case TGrammar(rs) => FirstSetSound(f, rs, rs[0], follow, n, s, i);
    case _ =>
  }

  /** A pattern that does not accept the empty string fails at the end of the subject. */
  lemma {:induction false} FirstAtEnd(f: nat, g: seq<Tree>, t: Tree, follow: set<byte>, d: nat, s: seq<byte>)
    requires !GetFirst(g, t, follow, d).empty
    ensures !Eval(f, g, t, s, |s|).Succ?
    decreases f, t
  {
    match t
    case TSeq(p1, p2) =>
      if CheckAux(g, p1, PEnullable, d) == Is(false) {
        FirstAtEnd(f, g, p1, FullSet, d, s);
      } else if !GetFirst(g, p2, follow, d).empty {
        FirstAtEnd(f, g, p2, follow, d, s);
      } else {
        FirstAtEnd(f, g, p1, GetFirst(g, p2, follow, d).cs, d, s);
      }
    case TChoice(p1, p2) =>
      FirstAtEnd(f, g, p1, follow, d, s);
      FirstAtEnd(f, g, p2, follow, d, s);
    case TAnd(p) => FirstAtEnd(f, g, p, follow, d, s);
    case TCall(k) => if f > 0 { FirstAtEnd(f - 1, g, g[k], follow, d - 1, s); }
    case TGrammar(rs) => FirstAtEnd(f, rs, rs[0], follow, d, s);
    case _ =>
  }

  /** First sets grow with the follow set; accepting the empty string does not depend on it, nor
      does how deep the analysis goes. */
  lemma {:induction false} FirstMono(g: seq<Tree>, t: Tree, fl: set<byte>, fl': set<byte>, d: nat)
    requires fl <= fl'
    ensures FirstSet(g, t, fl, d).Is? == FirstSet(g, t, fl', d).Is?
    ensures GetFirst(g, t, fl, d).cs <= GetFirst(g, t, fl', d).cs
    ensures GetFirst(g, t, fl, d).empty == GetFirst(g, t, fl', d).empty
    decreases d, t
  {
    match t
    case TRep(p) => FirstMono(g, p, fl, fl', d);
    case TSeq(p1, p2) =>
      FirstMono(g, p2, fl, fl', d);
      FirstMono(g, p1, GetFirst(g, p2, fl, d).cs, GetFirst(g, p2, fl', d).cs, d);
    case TChoice(p1, p2) =>
      FirstMono(g, p1, fl, fl', d);
      FirstMono(g, p2, fl, fl', d);
    case TAnd(p) => FirstMono(g, p, fl, fl', d);
    case TNot(p) => FirstMono(g, p, fl, fl', d);
    case TBehind(_, p) => FirstMono(g, p, fl, fl', d);
    case TCall(k) => if d > 0 && k < |g| { FirstMono(g, g[k], fl, fl', d - 1); }
    case TGrammar(rs) => if rs != [] { FirstMono(rs, rs[0], fl, fl', d); }
    case _ =>
  }

  /** How deep the analysis goes does not depend on the follow set. */
  lemma FirstEnds(g: seq<Tree>, t: Tree, fl: set<byte>, fl': set<byte>, d: nat)
    ensures FirstSet(g, t, fl, d).Is? == FirstSet(g, t, fl', d).Is?
  {
    FirstMono(g, t, fl, fl + fl', d);
    FirstMono(g, t, fl', fl + fl', d);
  }

  lemma InFull(cs: set<byte>)
    ensures cs <= FullSet
  {
    forall c | c in cs ensures c in FullSet { var b: byte := c; }
  }

  /** A headfail pattern never accepts the empty string. */
  lemma HeadFailNotEmpty(g: seq<Tree>, t: Tree, follow: set<byte>, d: nat)
    requires HeadFail(g, t, d)
    ensures !GetFirst(g, t, follow, d).empty
  {
    FirstEnds(g, t, FullSet, follow, d);
    HeadTestNotEmpty(g, t, follow, d);
  }

  lemma {:induction false} HeadTestNotEmpty(g: seq<Tree>, t: Tree, follow: set<byte>, n: nat)
    requires HeadTest(g, t, n) == Is(true) && FirstSet(g, t, follow, n).Is?
    ensures !FirstSet(g, t, follow, n).v.empty
    decreases n, t
  {
    match t
    case TSeq(p1, p2) =>
      var nullable := CheckAux(g, p1, PEnullable, n) == Is(true);
      HeadTestNotEmpty(g, p1, if nullable then FirstSet(g, p2, follow, n).v.cs else FullSet, n);
    case TChoice(p1, p2) =>
      HeadTestNotEmpty(g, p1, follow, n);
      HeadTestNotEmpty(g, p2, follow, n);
    case TAnd(p) => HeadTestNotEmpty(g, p, follow, n);
    case TCall(k) => HeadTestNotEmpty(g, g[k], follow, n - 1);
    case TGrammar(rs) => HeadTestNotEmpty(rs, rs[0], follow, n);
    case _ =>
  }

  lemma {:induction false} HeadFailSucceeds(f: nat, g: seq<Tree>, t: Tree, d: nat, s: seq<byte>, i: nat)
    requires HeadFail(g, t, d) && i < |s| && s[i] in GetFirst(g, t, FullSet, d).cs
    ensures Eval(f, g, t, s, i) != Fail
    decreases f, t
  {
    match t
    case TSeq(p1, p2) =>
      InFull(GetFirst(g, p2, FullSet, d).cs);
      FirstMono(g, p1, GetFirst(g, p2, FullSet, d).cs, FullSet, d);
      HeadFailSucceeds(f, g, p1, d, s, i);
      var r := Eval(f, g, p1, s, i);
      if r.Succ? { NoFailSound(f, g, p2, d, s, r.pos); }
    case TChoice(p1, p2) =>
      if s[i] in GetFirst(g, p1, FullSet, d).cs {
        HeadFailSucceeds(f, g, p1, d, s, i);
      } else {
        HeadFailSucceeds(f, g, p2, d, s, i);
      }
    case TAnd(p) => HeadFailSucceeds(f, g, p, d, s, i);
    case TCall(k) => if f > 0 { HeadFailSucceeds(f - 1, g, g[k], d - 1, s, i); }
    case TGrammar(rs) => HeadFailSucceeds(f, rs, rs[0], d, s, i);
    case _ =>
  }

  /** A headfail pattern fails exactly when there is no next character or it is outside the first set. */
  lemma {:induction false} HeadFailSound(f: nat, g: seq<Tree>, t: Tree, d: nat, s: seq<byte>, i: nat)
    requires HeadFail(g, t, d) && i <= |s| && Eval(f, g, t, s, i) != Out
    ensures Eval(f, g, t, s, i) == Fail <==> (i == |s| || s[i] !in GetFirst(g, t, FullSet, d).cs)
  {
    if i == |s| {
      HeadFailNotEmpty(g, t, FullSet, d);
      FirstAtEnd(f, g, t, FullSet, d, s);
    } else if s[i] in GetFirst(g, t, FullSet, d).cs {
      HeadFailSucceeds(f, g, t, d, s, i);
    } else {
      FirstSound(f, g, t, FullSet, d, s, i);
      InFull({s[i]});
    }
  }
}
