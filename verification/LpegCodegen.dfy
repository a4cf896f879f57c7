/**
 * What the LPeg compiler emits for a tree, as a sequence of slots with relative labels.
 * Calls are left open (`IOpenCall`) until the grammar around them is complete.
 */
module LpegCodegen {
  import opened LpegTree
  import opened LpegAnalysis
  import opened LpegVm

  datatype SetType = EmptySet | Singleton(c: byte) | Complete | Generic

  function CharsetType(cs: set<byte>): (r: SetType)
    ensures r.EmptySet? <==> cs == {}
    ensures r.Complete? <==> cs == FullSet
    ensures r.Singleton? ==> cs == {r.c}
    ensures r.Generic? ==> !exists c: byte :: cs == {c}
  {
    var zero: byte := 0;
    assert 0 as byte in FullSet && 1 as byte in FullSet;
    if cs == {} then EmptySet
    else if cs == FullSet then
      assert forall c: byte :: cs != {c} by {
        forall c: byte ensures cs != {c} { assert 0 as byte in cs && 1 as byte in cs; }
      }
      Complete
    else if exists c | c in cs :: cs == {c} then
      var c :| c in cs && cs == {c};
      Singleton(c)
    else
      assert forall c: byte :: cs == {c} ==> c in cs;
      Generic
  }

  /** The test that guards a piece of code, as far as the compiler looks at it. */
  datatype Test = NoTest | TestChar(c: byte) | TestSet(cs: set<byte>)

  predicate TestHolds(tt: Test, s: seq<byte>, i: nat) {
    match tt
    case NoTest => true
    case TestChar(c) => i < |s| && s[i] == c
    case TestSet(cs) => i < |s| && s[i] in cs
  }

  /** The test at address `tt` of the code (a negative address means none). */
  function TestAt(code: Code, tt: int): Test {
    if IsOp(code, tt, ITestChar) && code[tt].aux < 256 then TestChar(code[tt].aux)
    else if IsOp(code, tt, ITestSet) && tt + 2 < |code| && code[tt + 2].Buf? then TestSet(code[tt + 2].cs)
    else NoTest
  }

  function TestOf(cs: set<byte>): Test {
    match CharsetType(cs)
    case Singleton(c) => TestChar(c)
    case Generic => TestSet(cs)
    case _ => NoTest
  }

  function Jump(op: Opcode, offset: int): Code { [I(op), Off(offset)] }

  function SetBuf(cs: set<byte>): (c: Code)
    ensures |c| == CHARSETINSTSIZE - 1
  {
    [Buf(cs), Pad, Pad, Pad, Pad, Pad, Pad, Pad]
  }

  function GenChar(c: byte, tt: Test): Code {
    if tt == TestChar(c) then [I(IAny)] else [Op(IChar, c, 0)]
  }

  function GenSet(cs: set<byte>, tt: Test): Code {
    match CharsetType(cs)
    case EmptySet => [I(IFail)]
    case Complete => [I(IAny)]
    case Singleton(c) => GenChar(c, tt)
    case Generic => if tt == TestSet(cs) then [I(IAny)] else [I(ISet)] + SetBuf(cs)
  }

  /** A test that goes to `offset` at the end of the subject or on a character outside `cs`. */
  function GenTest(cs: set<byte>, offset: int): (c: Code)
    ensures |c| == TestLen(cs)
  {
    match CharsetType(cs)
    case EmptySet => Jump(IJmp, offset)
    case Complete => Jump(ITestAny, offset)
    case Singleton(c) => [Op(ITestChar, c, 0), Off(offset)]
    case Generic => Jump(ITestSet, offset) + SetBuf(cs)
  }

  function TestLen(cs: set<byte>): nat {
    if CharsetType(cs).Generic? then 1 + CHARSETINSTSIZE else 2
  }

  /** The optional test in front of an `IChoice`; none when the empty string is accepted. */
  function GenTestIf(f: First, offset: int): (c: Code) { if f.empty then [] else GenTest(f.cs, offset) }

  function TestIfLen(f: First): nat { if f.empty then 0 else TestLen(f.cs) }

  function TestOfIf(f: First): Test { if f.empty then NoTest else TestOf(f.cs) }

  /** Address reached from `p` by following at most `n` jumps. */
  function Follow(code: Code, p: int, n: nat): int
    decreases n
  {
    if n > 0 && IsOp(code, p, IJmp) && HasOff(code, p) then Follow(code, Target(code, p), n - 1) else p
  }

  /** The chain of jumps from `p` ends, so its final target exists. */
  ghost predicate Settles(code: Code, p: int) {
    exists n: nat :: !IsOp(code, Follow(code, p, n), IJmp)
  }

  ghost predicate RetAt(code: Code, p: int) {
    exists n: nat :: IsOp(code, Follow(code, p, n), IRet)
  }

  predicate IsOpen(x: Slot) { x.Op? && x.op == IOpenCall }

  /** Close the open calls from address `i` on: a call whose continuation only jumps to `IRet`
      becomes a jump. */
  ghost function LinkFrom(code: Code, i: nat, positions: seq<nat>): (r: Code)
    ensures |r| == |code|
    decreases |code| - i
  {
    if i >= |code| || !code[i].Op? then code
    else if IsOpen(code[i]) && i + 1 < |code| && code[i].key < |positions| then
      var op := if RetAt(code, i + 2) then IJmp else ICall;
      var linked := code[i := code[i].(op := op)][i + 1 := Off(positions[code[i].key] - i)];
      LinkFrom(linked, i + 2, positions)
    else LinkFrom(code, i + SizeI(code[i].op), positions)
  }

  ghost function Link(code: Code, positions: seq<nat>): (r: Code)
    ensures |r| == |code|
  {
    LinkFrom(code, 4, positions)
  }

  ghost function Gen(d: nat, g: seq<Tree>, t: Tree, opt: bool, tt: Test, fl: set<byte>): Code
    decreases t, 1
  {
    match t
    case TChar(c) => GenChar(c, tt)
    case TAny => [I(IAny)]
    case TSet(cs) => GenSet(cs, tt)
    case TTrue => []
    case TFalse => [I(IFail)]
    case TChoice(p1, p2) => GenChoice(d, g, t, opt, fl)
    case TRep(p) => GenRep(d, g, t, opt, fl)
    case TBehind(n, p) => (if n > 0 then [Op(IBehind, n, 0)] else []) + Gen(d, g, p, false, NoTest, FullSet)
    case TNot(p) => GenNot(d, g, t)
    case TAnd(p) => GenAnd(d, g, t, tt)
    case TSeq(p1, p2) =>
      var fl1 := if NeedFollow(p1) then GetFirst(g, p2, fl, d).cs else FullSet;
      var tt2 := if FixedLen(g, p1, d) != 0 then NoTest else tt;
      Gen(d, g, p1, false, tt, fl1) + Gen(d, g, p2, opt, tt2, fl)
    case TCall(k) => [Op(IOpenCall, 0, k), Hole]
    case TGrammar(rs) => Link(RawGrammar(d, rs), Positions(d, rs, rs, 4))
  }

  predicate ByHead(d: nat, g: seq<Tree>, p1: Tree, p2: Tree, fl: set<byte>) {
    var f1 := GetFirst(g, p1, FullSet, d);
    HeadFail(g, p1, d) || (!f1.empty && f1.cs !! GetFirst(g, p2, fl, d).cs)
  }

  ghost function GenChoice(d: nat, g: seq<Tree>, t: Tree, opt: bool, fl: set<byte>): Code
    requires t.TChoice?
    decreases t, 0
  {
    var p1, p2 := t.p1, t.p2;
    var f1 := GetFirst(g, p1, FullSet, d);
    var c2 := Gen(d, g, p2, opt, NoTest, fl);
    if ByHead(d, g, p1, p2, fl) then
      var c1 := Gen(d, g, p1, false, TestOf(f1.cs), fl);
      var jmp := if p2.TTrue? then [] else Jump(IJmp, 2 + |c2|);
      GenTest(f1.cs, TestLen(f1.cs) + |c1| + |jmp|) + c1 + jmp + c2
    else if opt && p2.TTrue? then
      Jump(IPartialCommit, 2) + Gen(d, g, p1, true, NoTest, FullSet)
    else
      var c1 := Gen(d, g, p1, p2.TTrue?, TestOfIf(f1), FullSet);
      GenTestIf(f1, TestIfLen(f1) + 4 + |c1|) + Jump(IChoice, 4 + |c1|) + c1 + Jump(ICommit, 2 + |c2|) + c2
  }

  predicate ByHeadRep(d: nat, g: seq<Tree>, p: Tree, fl: set<byte>) {
    var f := GetFirst(g, p, FullSet, d);
    HeadFail(g, p, d) || (!f.empty && f.cs !! fl)
  }

  ghost function GenRep(d: nat, g: seq<Tree>, t: Tree, opt: bool, fl: set<byte>): Code
    requires t.TRep?
    decreases t, 0
  {
    var p := t.p;
    var f := GetFirst(g, p, FullSet, d);
    if ToCharset(p).YesSet? then [I(ISpan)] + SetBuf(ToCharset(p).cs)
    else if ByHeadRep(d, g, p, fl) then
      var c := Gen(d, g, p, false, TestOf(f.cs), FullSet);
      var n := TestLen(f.cs) + |c|;
      GenTest(f.cs, n + 2) + c + Jump(IJmp, -n)
    else
      var c := Gen(d, g, p, false, NoTest, FullSet);
      GenTestIf(f, TestIfLen(f) + 4 + |c|)
      + (if opt then Jump(IPartialCommit, 2) else Jump(IChoice, 4 + |c|))
      + c + Jump(IPartialCommit, -|c|)
  }

  ghost function GenNot(d: nat, g: seq<Tree>, t: Tree): Code
    requires t.TNot?
    decreases t, 0
  {
    var p := t.p;
    var f := GetFirst(g, p, FullSet, d);
    if HeadFail(g, p, d) then
      GenTestIf(f, TestIfLen(f) + 1) + [I(IFail)]
    else
      var c := Gen(d, g, p, false, NoTest, FullSet);
      GenTestIf(f, TestIfLen(f) + 3 + |c|) + Jump(IChoice, 3 + |c|) + c + [I(IFailTwice)]
  }

  ghost function GenAnd(d: nat, g: seq<Tree>, t: Tree, tt: Test): Code
    requires t.TAnd?
    decreases t, 0
  {
    var n := FixedLen(g, t.p, d);
    var c := Gen(d, g, t.p, false, tt, FullSet);
    if 0 <= n <= MAXBEHIND then
      c + (if n > 0 then [Op(IBehind, n, 0)] else [])
    else
      Jump(IChoice, 4 + |c|) + c + Jump(IBackCommit, 3) + [I(IFail)]
  }

  /** Code of the rules `rs` (of grammar `g`), each followed by `IRet`. */
  ghost function GenRules(d: nat, g: seq<Tree>, rs: seq<Tree>): Code
    decreases rs, 2
  {
    if rs == [] then [] else
    Gen(d, g, rs[0], false, NoTest, FullSet) + [I(IRet)] + GenRules(d, g, rs[1..])
  }

  ghost function RawGrammar(d: nat, g: seq<Tree>): Code
    decreases g, 3
  {
    var body := GenRules(d, g, g);
    Jump(ICall, 4) + Jump(IJmp, 2 + |body|) + body
  }

  /** Where each of the rules `rs` starts when the first of them starts at `at`. */
  ghost function Positions(d: nat, g: seq<Tree>, rs: seq<Tree>, at: nat): (ps: seq<nat>)
    ensures |ps| == |rs|
    decreases rs, 2
  {
    if rs == [] then [] else
    [at] + Positions(d, g, rs[1..], at + |Gen(d, g, rs[0], false, NoTest, FullSet)| + 1)
  }
}
