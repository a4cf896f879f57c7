/**
 * Building trees: the rewrites done by the pattern operators and by the final adjustment keep the
 * meaning of a pattern.
 */
module LpegConstruct {
  import opened LpegTree
  import opened LpegAnalysis

  /** Two patterns with the same meaning under every grammar, fuel, subject and position. */
  ghost predicate Same(t: Tree, u: Tree) {
    forall f: nat, g: seq<Tree>, s: seq<byte>, i: nat :: i <= |s| ==> Eval(f, g, t, s, i) == Eval(f, g, u, s, i)
  }

  /** `t1 * t2` */
  function MkSeq(t1: Tree, t2: Tree): Tree {
    if t1.TFalse? || t2.TTrue? then t1 else if t1.TTrue? then t2 else TSeq(t1, t2)
  }

  /** `t1 + t2` */
  function MkChoice(d: nat, t1: Tree, t2: Tree): Tree {
    var st1, st2 := ToCharset(t1), ToCharset(t2);
    if st1.YesSet? && st2.YesSet? then TSet(st1.cs + st2.cs)
    else if NoFail([], t1, d) || t2.TFalse? then t1
    else if t1.TFalse? then t2
    else TChoice(t1, t2)
  }

  /** `t1 - t2` */
  function MkSub(t1: Tree, t2: Tree): Tree {
    var st1, st2 := ToCharset(t1), ToCharset(t2);
    if st1.YesSet? && st2.YesSet? then TSet(st1.cs - st2.cs) else TSeq(TNot(t2), t1)
  }

  lemma CharsetMeaning(f: nat, g: seq<Tree>, t: Tree, s: seq<byte>, i: nat)
    requires ToCharset(t).YesSet? && i <= |s|
    ensures Eval(f, g, t, s, i) == Take(s, i, ToCharset(t).cs)
  {
    if i < |s| { InFull({s[i]}); }
  }

  /** While a pattern is built its calls are still open, and an open call can fail: what cannot
      fail without a grammar cannot fail in one. */
  lemma {:induction false} NoFailAnywhere(f: nat, g: seq<Tree>, t: Tree, d: nat, s: seq<byte>, i: nat)
    requires NoFail([], t, d) && i <= |s|
    ensures Eval(f, g, t, s, i) != Fail
    decreases f, t
  {
    match t
    case TRep(p) =>
      if f > 0 {
        var r := Eval(f, g, p, s, i);
        if r.Succ? { NoFailAnywhere(f - 1, g, t, d, s, r.pos); }
      }
    case TSeq(p1, p2) =>
      NoFailAnywhere(f, g, p1, d, s, i);
      var r := Eval(f, g, p1, s, i);
      if r.Succ? { NoFailAnywhere(f, g, p2, d, s, r.pos); }
    case TChoice(p1, p2) => NoFailAnywhere(f, g, if NoFail([], p2, d) then p2 else p1, d, s, i);
    case TAnd(p) => NoFailAnywhere(f, g, p, d, s, i);
    case TGrammar(rs) => NoFailSound(f, [], t, d, s, i);
    case _ =>
  }

  lemma ChoiceMeaning(f: nat, g: seq<Tree>, d: nat, t1: Tree, t2: Tree, s: seq<byte>, i: nat)
    requires i <= |s|
    ensures Eval(f, g, MkChoice(d, t1, t2), s, i) == Eval(f, g, TChoice(t1, t2), s, i)
  {
    hide ToCharset, NoFail;
    if ToCharset(t1).YesSet? && ToCharset(t2).YesSet? {
      CharsetMeaning(f, g, t1, s, i);
      CharsetMeaning(f, g, t2, s, i);
    } else if NoFail([], t1, d) {
      NoFailAnywhere(f, g, t1, d, s, i);
    }
  }

  lemma SubMeaning(f: nat, g: seq<Tree>, t1: Tree, t2: Tree, s: seq<byte>, i: nat)
    requires i <= |s|
    ensures Eval(f, g, MkSub(t1, t2), s, i) == Eval(f, g, TSeq(TNot(t2), t1), s, i)
  {
    hide ToCharset;
    if ToCharset(t1).YesSet? && ToCharset(t2).YesSet? {
      CharsetMeaning(f, g, t1, s, i);
      CharsetMeaning(f, g, t2, s, i);
    }
  }

  lemma OperatorsKeepMeaning(d: nat, t1: Tree, t2: Tree)
    ensures Same(MkSeq(t1, t2), TSeq(t1, t2))
    ensures Same(MkChoice(d, t1, t2), TChoice(t1, t2))
    ensures Same(MkSub(t1, t2), TSeq(TNot(t2), t1))
  {
    hide MkChoice, MkSub;
    forall f: nat, g: seq<Tree>, s: seq<byte>, i: nat | i <= |s|
      ensures Eval(f, g, MkSeq(t1, t2), s, i) == Eval(f, g, TSeq(t1, t2), s, i)
      ensures Eval(f, g, MkChoice(d, t1, t2), s, i) == Eval(f, g, TChoice(t1, t2), s, i)
      ensures Eval(f, g, MkSub(t1, t2), s, i) == Eval(f, g, TSeq(TNot(t2), t1), s, i)
    {
      ChoiceMeaning(f, g, d, t1, t2, s, i);
      SubMeaning(f, g, t1, t2, s, i);
    }
  }

  predicate SameTag(t: Tree, u: Tree) { (t.TSeq? && u.TSeq?) || (t.TChoice? && u.TChoice?) }

  function WithTag(t: Tree, p1: Tree, p2: Tree): Tree { if t.TSeq? then TSeq(p1, p2) else TChoice(p1, p2) }

  lemma AssocSame(t: Tree)
    requires (t.TSeq? || t.TChoice?) && SameTag(t.p1, t)
    ensures Same(WithTag(t, t.p1.p1, WithTag(t, t.p1.p2, t.p2)), t)
  {
    var u := WithTag(t, t.p1.p1, WithTag(t, t.p1.p2, t.p2));
    forall f: nat, g: seq<Tree>, s: seq<byte>, i: nat | i <= |s| ensures Eval(f, g, u, s, i) == Eval(f, g, t, s, i) {
      var r := Eval(f, g, t.p1.p1, s, i);
      assert Eval(f, g, t.p1, s, i) == Eval(f, g, WithTag(t, t.p1.p1, t.p1.p2), s, i);
      if r.Succ? && t.TSeq? {
        assert Eval(f, g, u.p2, s, r.pos) == Eval(f, g, TSeq(t.p1.p2, t.p2), s, r.pos);
      }
    }
  }

  lemma SameTrans(t: Tree, u: Tree, v: Tree)
    requires Same(t, u) && Same(u, v)
    ensures Same(t, v)
  {
    forall f: nat, g: seq<Tree>, s: seq<byte>, i: nat | i <= |s| ensures Eval(f, g, t, s, i) == Eval(f, g, v, s, i) {
      assert Eval(f, g, t, s, i) == Eval(f, g, u, s, i);
    }
  }

  /** `(a op b) op c` becomes `a op (b op c)` until the first operand is of another kind. */
  method CorrectAssociativity(t: Tree) returns (r: Tree)
    requires t.TSeq? || t.TChoice?
    ensures SameTag(r, t) && !SameTag(r.p1, r) && Same(r, t)
  {
    r := t;
    while SameTag(r.p1, r)
      invariant SameTag(r, t) && Same(r, t)
      decreases r.p1
    {
      AssocSame(r);
      var r' := WithTag(r, r.p1.p1, WithTag(r, r.p1.p2, r.p2));
      SameTrans(r', r, t);
      r := r';
    }
  }
}
