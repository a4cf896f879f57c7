/** The code of some small patterns, instruction by instruction: where the compiler needs no choice, and where it does. */
module LpegExamples {
  import opened LpegTree
  import opened LpegAnalysis
  import opened LpegVm
  import opened LpegCodegen

  lemma OneChar(c: byte)
    ensures CharsetType({c}) == Singleton(c) && TestOf({c}) == TestChar(c) && TestLen({c}) == 2
    ensures forall offset :: GenTest({c}, offset) == [Op(ITestChar, c, 0), Off(offset)]
  {
    var other: byte := if c == 0 then 1 else 0;
    assert other in FullSet && other !in {c};
    assert CharsetType({c}).Singleton?;
    var r := CharsetType({c});
    assert r.c in {c};
  }

  /** `'a' / 'b'`: the test decides, and the character it found is not looked at again. */
  lemma TwoChars(d: nat)
    ensures Gen(d, [], TChoice(TChar(97), TChar(98)), false, NoTest, FullSet) ==
      [Op(ITestChar, 97, 0), Off(5), I(IAny), I(IJmp), Off(3), Op(IChar, 98, 0)]
  {
    hide CharsetType, TestOf, TestLen, GenTest;
    OneChar(97);
    assert GetFirst([], TChar(97), FullSet, d) == First({97}, false);
    assert HeadFail([], TChar(97), d);
    assert ByHead(d, [], TChar(97), TChar(98), FullSet);
  }

  /** `'ab' / 'ac'`: both begin with the same character, so a choice is needed. */
  lemma SameStart(d: nat)
    ensures Gen(d, [], TChoice(TSeq(TChar(97), TChar(98)), TSeq(TChar(97), TChar(99))), false, NoTest, FullSet) ==
      [Op(ITestChar, 97, 0), Off(8), I(IChoice), Off(6), I(IAny), Op(IChar, 98, 0), I(ICommit), Off(4),
       Op(IChar, 97, 0), Op(IChar, 99, 0)]
  {
    hide CharsetType, TestOf, TestLen, GenTest, ByHead;
    OneChar(97);
    var p1, p2 := TSeq(TChar(97), TChar(98)), TSeq(TChar(97), TChar(99));
    SeqFirst(d, 98);
    SeqFirst(d, 99);
    SeqCode(d, 98, TestChar(97));
    SeqCode(d, 99, NoTest);
    NotByHead(d);
  }

  lemma SeqFirst(d: nat, c: byte)
    ensures GetFirst([], TSeq(TChar(97), TChar(c)), FullSet, d) == First({97}, false)
    ensures !HeadFail([], TSeq(TChar(97), TChar(c)), d)
  {
    assert CheckAux([], TChar(97), PEnullable, d) == Is(false);
    assert CheckAux([], TChar(c), PEnofail, d) == Is(false);
    assert FirstSet([], TChar(97), FullSet, d) == Is(First({97}, false));
  }

  lemma SeqCode(d: nat, c: byte, tt: Test)
    ensures Gen(d, [], TSeq(TChar(97), TChar(c)), false, tt, FullSet) == GenChar(97, tt) + [Op(IChar, c, 0)]
  {
    assert FixedLen([], TChar(97), d) == 1;
    assert Gen(d, [], TChar(c), false, NoTest, FullSet) == [Op(IChar, c, 0)];
  }

  lemma NotByHead(d: nat)
    ensures !ByHead(d, [], TSeq(TChar(97), TChar(98)), TSeq(TChar(97), TChar(99)), FullSet)
  {
    SeqFirst(d, 98);
    SeqFirst(d, 99);
    assert 97 in {97 as byte} * {97};
  }

  /** `'a'*` is one span, and `('ab')*` a loop whose choice is made once. */
  lemma Loops(d: nat)
    ensures Gen(d, [], TRep(TChar(97)), false, NoTest, FullSet) == [I(ISpan), Buf({97}), Pad, Pad, Pad, Pad, Pad, Pad, Pad]
    ensures Gen(d, [], TRep(TSeq(TChar(97), TChar(98))), false, NoTest, FullSet) ==
      [Op(ITestChar, 97, 0), Off(8), I(IChoice), Off(6), Op(IChar, 97, 0), Op(IChar, 98, 0), I(IPartialCommit), Off(-2)]
  {
    hide CharsetType, TestOf, TestLen, GenTest, ByHeadRep;
    OneChar(97);
    var p := TSeq(TChar(97), TChar(98));
    SeqFirst(d, 98);
    SeqCode(d, 98, NoTest);
    NotByHeadRep(d);
    assert ToCharset(p) == NoSet;
  }

  lemma NotByHeadRep(d: nat)
    ensures !ByHeadRep(d, [], TSeq(TChar(97), TChar(98)), FullSet)
  {
    SeqFirst(d, 98);
    assert (97 as byte) in {97 as byte} && (97 as byte) in FullSet;
  }

  /** `-'a'` and `#'a'`: a test that fails, and a step back. */
  lemma Predicates(d: nat)
    ensures Gen(d, [], TNot(TChar(97)), false, NoTest, FullSet) == [Op(ITestChar, 97, 0), Off(3), I(IFail)]
    ensures Gen(d, [], TAnd(TChar(97)), false, NoTest, FullSet) == [Op(IChar, 97, 0), Op(IBehind, 1, 0)]
  {
    hide CharsetType, TestOf, TestLen, GenTest;
    OneChar(97);
    assert HeadFail([], TChar(97), d) && GetFirst([], TChar(97), FullSet, d) == First({97}, false);
    assert FixedLen([], TChar(97), d) == 1;
  }
}
