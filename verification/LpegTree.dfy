/**
 * Capture-free LPeg pattern trees and the ordered-choice meaning of a pattern.
 *
 * A call names a rule of the innermost enclosing grammar; the list of those rules is passed
 * along as `g`. Grammars may loop, so evaluation has a fuel that is spent on calls and on
 * iterations only; `Out` says that the fuel was not enough.
 */
module LpegTree {
  import Words

  type byte = Words.byte

  const FullSet: set<byte> := set c: byte | 0 <= c < 256 :: c

  datatype Tree =
    | TChar(c: byte)
    | TSet(cs: set<byte>)
    | TAny
    | TTrue
    | TFalse
    | TRep(p: Tree)
    | TSeq(p1: Tree, p2: Tree)
    | TChoice(p1: Tree, p2: Tree)
    | TNot(p: Tree)
    | TAnd(p: Tree)
    | TCall(rule: nat)
    | TGrammar(rules: seq<Tree>)
    | TBehind(n: nat, p: Tree)

  datatype Res = Out | Fail | Succ(pos: nat)

  function Take(s: seq<byte>, i: nat, cs: set<byte>): Res {
    if i < |s| && s[i] in cs then Succ(i + 1) else Fail
  }

  function Eval(f: nat, g: seq<Tree>, t: Tree, s: seq<byte>, i: nat): (r: Res)
    requires i <= |s|
    ensures r.Succ? ==> i <= r.pos <= |s|
    decreases f, t
  {
    match t
    case TChar(c) => Take(s, i, {c})
    case TSet(cs) => Take(s, i, cs)
    case TAny => if i < |s| then Succ(i + 1) else Fail
    case TTrue => Succ(i)
    case TFalse => Fail
    case TRep(p) =>
      if f == 0 then Out else
      (match Eval(f, g, p, s, i)
       case Out => Out
       case Fail => Succ(i)
       case Succ(j) => Eval(f - 1, g, t, s, j))
    case TSeq(p1, p2) =>
      (match Eval(f, g, p1, s, i)
       case Out => Out
       case Fail => Fail
       case Succ(j) => Eval(f, g, p2, s, j))
    case TChoice(p1, p2) =>
      (match Eval(f, g, p1, s, i)
       case Out => Out
       case Fail => Eval(f, g, p2, s, i)
       case Succ(j) => Succ(j))
    case TNot(p) =>
      (match Eval(f, g, p, s, i)
       case Out => Out
       case Fail => Succ(i)
       case Succ(_) => Fail)
    case TAnd(p) =>
      (match Eval(f, g, p, s, i)
       case Out => Out
       case Fail => Fail
       case Succ(_) => Succ(i))
    case TCall(k) =>
      if f == 0 || k >= |g| then Out else Eval(f - 1, g, g[k], s, i)
    case TGrammar(rs) =>
      if rs == [] then Out else Eval(f, rs, rs[0], s, i)
    case TBehind(n, p) =>
      if n > i then Fail else
      (match Eval(f, g, p, s, i - n)
       case Out => Out
       case Fail => Fail
       case Succ(_) => Succ(i))
  }

  /** More fuel never changes an answer. */
  lemma {:induction false} EvalMono(f: nat, f': nat, g: seq<Tree>, t: Tree, s: seq<byte>, i: nat)
    requires i <= |s| && f <= f' && Eval(f, g, t, s, i) != Out
    ensures Eval(f', g, t, s, i) == Eval(f, g, t, s, i)
    decreases f, t
  {
    match t
    case TRep(p) =>
      EvalMono(f, f', g, p, s, i);
      var r := Eval(f, g, p, s, i);
      if r.Succ? { EvalMono(f - 1, f' - 1, g, t, s, r.pos); }
    case TSeq(p1, p2) =>
      EvalMono(f, f', g, p1, s, i);
      var r := Eval(f, g, p1, s, i);
      if r.Succ? { EvalMono(f, f', g, p2, s, r.pos); }
    case TChoice(p1, p2) =>
      EvalMono(f, f', g, p1, s, i);
      if Eval(f, g, p1, s, i).Fail? { EvalMono(f, f', g, p2, s, i); }
    case TNot(p) => EvalMono(f, f', g, p, s, i);
    case TAnd(p) => EvalMono(f, f', g, p, s, i);
    case TCall(k) => EvalMono(f - 1, f' - 1, g, g[k], s, i);
    case TGrammar(rs) => EvalMono(f, f', rs, rs[0], s, i);
    case TBehind(n, p) => if n <= i { EvalMono(f, f', g, p, s, i - n); }
    case _ =>
  }

  /** Does the pattern call rule `k` of the grammar around it? */
  predicate Calls(t: Tree, k: nat)
    decreases t
  {
    match t
    case TCall(r) => r == k
    case TRep(p) => Calls(p, k)
    case TNot(p) => Calls(p, k)
    case TAnd(p) => Calls(p, k)
    case TBehind(_, p) => Calls(p, k)
    case TSeq(p1, p2) => Calls(p1, k) || Calls(p2, k)
    case TChoice(p1, p2) => Calls(p1, k) || Calls(p2, k)
    case _ => false
  }

  /** A rule is used when it is the initial one or some rule calls it; only those are checked. */
  predicate Used(g: seq<Tree>, k: nat) { k == 0 || exists r :: 0 <= r < |g| && Calls(g[r], k) }
}
