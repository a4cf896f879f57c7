/**
 * The instruction array and the backtracking machine of LPeg.
 *
 * An instruction with a label takes two slots (the second holds the relative offset); a set takes
 * eight more slots, the first of which stands for the whole set. A fresh label slot is a `Hole`.
 */
module LpegVm {
  import opened LpegTree

  datatype Opcode =
    | IAny | IChar | ISet | ITestAny | ITestChar | ITestSet | ISpan | IBehind | IRet | IEnd
    | IChoice | IJmp | ICall | IOpenCall | ICommit | IPartialCommit | IBackCommit
    | IFailTwice | IFail | IGiveup

  /** `Op` carries the byte `aux` and the short `key` of the instruction. */
  datatype Slot = Op(op: Opcode, aux: nat, key: nat) | Off(offset: int) | Buf(cs: set<byte>) | Pad | Hole

  const CHARSETINSTSIZE: nat := 9

  type Code = seq<Slot>

  function I(op: Opcode): Slot { Op(op, 0, 0) }

  function SizeI(op: Opcode): nat {
    match op
    case ISet => CHARSETINSTSIZE
    case ISpan => CHARSETINSTSIZE
    case ITestSet => CHARSETINSTSIZE + 1
    case ITestChar => 2
    case ITestAny => 2
    case IChoice => 2
    case IJmp => 2
    case ICall => 2
    case IOpenCall => 2
    case ICommit => 2
    case IPartialCommit => 2
    case IBackCommit => 2
    case _ => 1
  }

  /** Entry of the backtrack stack: a return address, or an alternative with a saved position. */
  datatype Entry = Ret(p: int) | Alt(p: int, pos: nat)
  datatype Stack = Bottom | Push(top: Entry, rest: Stack)

  datatype State = State(p: int, i: nat, stk: Stack)
  datatype Outcome = Next(st: State) | Done(res: Res) | Stuck

  /** Address of the `giveup` instruction, which lives outside the code array. */
  const GIVEUP := -1

  function InitStack(i: nat): Stack { Push(Alt(GIVEUP, i), Bottom) }

  predicate IsOp(code: Code, p: int, op: Opcode) {
    0 <= p < |code| && code[p].Op? && code[p].op == op
  }

  predicate HasOff(code: Code, p: int) { 0 <= p && p + 1 < |code| && code[p + 1].Off? }

  function Target(code: Code, p: int): int
    requires HasOff(code, p)
  {
    p + code[p + 1].offset
  }

  predicate IsLabel(code: Code, p: int, op: Opcode, target: int) {
    IsOp(code, p, op) && HasOff(code, p) && Target(code, p) == target
  }

  /** Pop pending calls up to an alternative. */
  function Backtrack(stk: Stack): Outcome {
    match stk
    case Bottom => Stuck
    case Push(Ret(_), rest) => Backtrack(rest)
    case Push(Alt(p, pos), rest) => Next(State(p, pos, rest))
  }

  function SpanEnd(s: seq<byte>, i: nat, cs: set<byte>): (j: nat)
    requires i <= |s|
    ensures i <= j <= |s|
    decreases |s| - i
  {
    if i < |s| && s[i] in cs then SpanEnd(s, i + 1, cs) else i
  }

  function Branch(code: Code, st: State, taken: bool, size: nat): Outcome {
    if !HasOff(code, st.p) then Stuck
    else if taken then Next(st.(p := Target(code, st.p)))
    else Next(st.(p := st.p + size))
  }

  function Advance(st: State, ok: bool, size: nat): Outcome {
    if ok then Next(st.(p := st.p + size, i := st.i + 1)) else Backtrack(st.stk)
  }

  function Step(code: Code, s: seq<byte>, st: State): Outcome {
    var State(p, i, stk) := st;
    if p == GIVEUP then Done(Fail)
    else if !(0 <= p < |code| && code[p].Op? && i <= |s|) then Stuck
    else
      match code[p].op
      case IEnd => Done(Succ(i))
      case IRet => if stk.Push? && stk.top.Ret? then Next(State(stk.top.p, i, stk.rest)) else Stuck
      case IAny => Advance(st, i < |s|, 1)
      case ITestAny => Branch(code, st, i >= |s|, 2)
      case IChar => Advance(st, i < |s| && s[i] == code[p].aux, 1)
      case ITestChar => Branch(code, st, !(i < |s| && s[i] == code[p].aux), 2)
      case ISet =>
        if p + 1 < |code| && code[p + 1].Buf? then Advance(st, i < |s| && s[i] in code[p + 1].cs, CHARSETINSTSIZE) else Stuck
      case ITestSet =>
        if p + 2 < |code| && code[p + 2].Buf? then
          Branch(code, st, !(i < |s| && s[i] in code[p + 2].cs), 1 + CHARSETINSTSIZE)
        else Stuck
      case IBehind => if code[p].aux > i then Backtrack(stk) else Next(State(p + 1, i - code[p].aux, stk))
      case ISpan =>
        if p + 1 < |code| && code[p + 1].Buf? then
          Next(State(p + CHARSETINSTSIZE, SpanEnd(s, i, code[p + 1].cs), stk))
        else Stuck
      case IJmp => Branch(code, st, true, 2)
      case IChoice =>
        if HasOff(code, p) then Next(State(p + 2, i, Push(Alt(Target(code, p), i), stk))) else Stuck
      case ICall =>
        if HasOff(code, p) then Next(State(Target(code, p), i, Push(Ret(p + 2), stk))) else Stuck
      case ICommit =>
        if HasOff(code, p) && stk.Push? && stk.top.Alt? then Next(State(Target(code, p), i, stk.rest)) else Stuck
      case IPartialCommit =>
        if HasOff(code, p) && stk.Push? && stk.top.Alt? then
          Next(State(Target(code, p), i, Push(Alt(stk.top.p, i), stk.rest)))
        else Stuck
      case IBackCommit =>
        if HasOff(code, p) && stk.Push? && stk.top.Alt? then
          Next(State(Target(code, p), stk.top.pos, stk.rest))
        else Stuck
      case IFailTwice => if stk.Push? then Backtrack(stk.rest) else Stuck
      case IFail => Backtrack(stk)
      case _ => Stuck
  }

  function Run(code: Code, s: seq<byte>, st: State, n: nat): Res
    decreases n
  {
    if n == 0 then Out else
    match Step(code, s, st)
    case Next(st') => Run(code, s, st', n - 1)
    case Done(r) => r
    case Stuck => Out
  }

  /** Started in `st`, the machine stops with answer `r`. */
  ghost predicate Halts(code: Code, s: seq<byte>, st: State, r: Res) {
    r != Out && exists n: nat :: Run(code, s, st, n) == r
  }

  ghost predicate HaltsFrom(code: Code, s: seq<byte>, o: Outcome, r: Res) {
    match o
    case Next(st) => Halts(code, s, st, r)
    case Done(r') => r' == r && r != Out
    case Stuck => false
  }

  lemma StepBack(code: Code, s: seq<byte>, st: State, r: Res)
    requires HaltsFrom(code, s, Step(code, s, st), r)
    ensures Halts(code, s, st, r)
  {
    match Step(code, s, st)
    case Next(st') =>
      var n: nat :| Run(code, s, st', n) == r;
      assert Run(code, s, st, n + 1) == r;
    case Done(_) => assert Run(code, s, st, 1) == r;
  }

  lemma RunJmp(code: Code, s: seq<byte>, p: int, q: int, i: nat, stk: Stack, r: Res)
    requires i <= |s| && IsLabel(code, p, IJmp, q) && Halts(code, s, State(q, i, stk), r)
    ensures Halts(code, s, State(p, i, stk), r)
  {
    StepBack(code, s, State(p, i, stk), r);
  }

  lemma RunChoice(code: Code, s: seq<byte>, p: int, q: int, i: nat, stk: Stack, r: Res)
    requires i <= |s| && IsLabel(code, p, IChoice, q) && Halts(code, s, State(p + 2, i, Push(Alt(q, i), stk)), r)
    ensures Halts(code, s, State(p, i, stk), r)
  {
    StepBack(code, s, State(p, i, stk), r);
  }

  lemma RunCommit(code: Code, s: seq<byte>, p: int, q: int, i: nat, e: Entry, stk: Stack, r: Res)
    requires i <= |s| && e.Alt? && IsLabel(code, p, ICommit, q) && Halts(code, s, State(q, i, stk), r)
    ensures Halts(code, s, State(p, i, Push(e, stk)), r)
  {
    StepBack(code, s, State(p, i, Push(e, stk)), r);
  }

  lemma RunPartialCommit(code: Code, s: seq<byte>, p: int, q: int, i: nat, e: Entry, stk: Stack, r: Res)
    requires i <= |s| && e.Alt? && IsLabel(code, p, IPartialCommit, q)
    requires Halts(code, s, State(q, i, Push(Alt(e.p, i), stk)), r)
    ensures Halts(code, s, State(p, i, Push(e, stk)), r)
  {
    StepBack(code, s, State(p, i, Push(e, stk)), r);
  }

  lemma RunBackCommit(code: Code, s: seq<byte>, p: int, q: int, i: nat, e: Entry, stk: Stack, r: Res)
    requires i <= |s| && e.Alt? && IsLabel(code, p, IBackCommit, q) && Halts(code, s, State(q, e.pos, stk), r)
    ensures Halts(code, s, State(p, i, Push(e, stk)), r)
  {
    StepBack(code, s, State(p, i, Push(e, stk)), r);
  }

  lemma RunCall(code: Code, s: seq<byte>, p: int, q: int, i: nat, stk: Stack, r: Res)
    requires i <= |s| && IsLabel(code, p, ICall, q) && Halts(code, s, State(q, i, Push(Ret(p + 2), stk)), r)
    ensures Halts(code, s, State(p, i, stk), r)
  {
    StepBack(code, s, State(p, i, stk), r);
  }

  lemma RunRet(code: Code, s: seq<byte>, p: int, q: int, i: nat, stk: Stack, r: Res)
    requires i <= |s| && IsOp(code, p, IRet) && Halts(code, s, State(q, i, stk), r)
    ensures Halts(code, s, State(p, i, Push(Ret(q), stk)), r)
  {
    StepBack(code, s, State(p, i, Push(Ret(q), stk)), r);
  }

  ghost predicate FailHalts(code: Code, s: seq<byte>, stk: Stack, r: Res) {
    HaltsFrom(code, s, Backtrack(stk), r)
  }

  lemma RunFail(code: Code, s: seq<byte>, p: int, i: nat, stk: Stack, r: Res)
    requires i <= |s| && IsOp(code, p, IFail) && FailHalts(code, s, stk, r)
    ensures Halts(code, s, State(p, i, stk), r)
  {
    StepBack(code, s, State(p, i, stk), r);
  }

  lemma RunFailTwice(code: Code, s: seq<byte>, p: int, i: nat, e: Entry, stk: Stack, r: Res)
    requires i <= |s| && IsOp(code, p, IFailTwice) && FailHalts(code, s, stk, r)
    ensures Halts(code, s, State(p, i, Push(e, stk)), r)
  {
    StepBack(code, s, State(p, i, Push(e, stk)), r);
  }

  lemma RunBehind(code: Code, s: seq<byte>, p: int, n: nat, i: nat, stk: Stack, r: Res)
    requires 0 <= p < |code| && code[p] == Op(IBehind, n, 0) && i <= |s|
    requires if n > i then FailHalts(code, s, stk, r) else Halts(code, s, State(p + 1, i - n, stk), r)
    ensures Halts(code, s, State(p, i, stk), r)
  {
    StepBack(code, s, State(p, i, stk), r);
  }

  lemma StepOn(code: Code, s: seq<byte>, st: State, r: Res)
    requires Halts(code, s, st, r)
    ensures HaltsFrom(code, s, Step(code, s, st), r)
  {
    var n: nat :| Run(code, s, st, n) == r;
    match Step(code, s, st)
    case Next(st') => assert Run(code, s, st', n - 1) == r;
    case _ =>
  }

  lemma {:induction false} RunMono(code: Code, s: seq<byte>, st: State, n: nat, m: nat)
    requires n <= m && Run(code, s, st, n) != Out
    ensures Run(code, s, st, m) == Run(code, s, st, n)
    decreases n
  {
    match Step(code, s, st)
    case Next(st') => RunMono(code, s, st', n - 1, m - 1);
    case _ =>
  }

  /** The machine is deterministic: it has at most one answer. */
  lemma HaltsUnique(code: Code, s: seq<byte>, st: State, r: Res, r': Res)
    requires Halts(code, s, st, r) && Halts(code, s, st, r')
    ensures r == r'
  {
    var n: nat :| Run(code, s, st, n) == r;
    var m: nat :| Run(code, s, st, m) == r';
    if n <= m { RunMono(code, s, st, n, m); } else { RunMono(code, s, st, m, n); }
  }

  /** Remove pending calls and take the alternative below them. */
  method PopAlternative(stk: Stack) returns (p: int, i: nat, rest: Stack)
    requires Backtrack(stk).Next?
    ensures Backtrack(stk) == Next(State(p, i, rest))
  {
    var top := stk;
    while top.Push? && top.top.Ret?
      invariant Backtrack(top) == Backtrack(stk)
      decreases top
    {
      top := top.rest;
    }
    p, i, rest := top.top.p, top.top.pos, top.rest;
  }

  lemma {:induction false} BacktrackNext(stk: Stack)
    ensures !Backtrack(stk).Done?
  {
    if stk.Push? && stk.top.Ret? { BacktrackNext(stk.rest); }
  }

  method Span(s: seq<byte>, start: nat, cs: set<byte>) returns (i: nat)
    requires start <= |s|
    ensures i == SpanEnd(s, start, cs)
  {
    i := start;
    while i < |s| && s[i] in cs
      invariant start <= i <= |s| && SpanEnd(s, i, cs) == SpanEnd(s, start, cs)
    {
      i := i + 1;
    }
  }

  /** The opcode interpreter: one loop over program counter, subject position and stack. The ghost
      step count only justifies termination. */
  method Match(code: Code, s: seq<byte>, start: nat, ghost r: Res) returns (res: Res)
    requires start <= |s| && Halts(code, s, State(0, start, InitStack(start)), r)
    ensures res == r
  {
    var p: int := 0;
    var i: nat := start;
    var stk := InitStack(start);
    ghost var n: nat :| Run(code, s, State(p, i, stk), n) == r;
    while p != GIVEUP
      invariant Run(code, s, State(p, i, stk), n) == r && r != Out
      decreases n
    {
      BacktrackNext(stk);
      var ins := code[p];
      var fail := false;
      match ins.op {
      case IEnd => return Succ(i);
      case IRet => p, stk := stk.top.p, stk.rest;
      case IAny => if i < |s| { p, i := p + 1, i + 1; } else { fail := true; }
      case ITestAny => if i < |s| { p := p + 2; } else { p := Target(code, p); }
      case IChar => if i < |s| && s[i] == ins.aux { p, i := p + 1, i + 1; } else { fail := true; }
      case ITestChar => if i < |s| && s[i] == ins.aux { p := p + 2; } else { p := Target(code, p); }
      case ISet => if i < |s| && s[i] in code[p + 1].cs { p, i := p + CHARSETINSTSIZE, i + 1; } else { fail := true; }
      case ITestSet => if i < |s| && s[i] in code[p + 2].cs { p := p + 1 + CHARSETINSTSIZE; } else { p := Target(code, p); }
      case IBehind => if ins.aux > i { fail := true; } else { p, i := p + 1, i - ins.aux; }
      case ISpan =>
        var j := Span(s, i, code[p + 1].cs);
        p, i := p + CHARSETINSTSIZE, j;
      case IJmp => p := Target(code, p);
      case IChoice => p, stk := p + 2, Push(Alt(Target(code, p), i), stk);
      case ICall => p, stk := Target(code, p), Push(Ret(p + 2), stk);
      case ICommit => p, stk := Target(code, p), stk.rest;
      case IPartialCommit => p, stk := Target(code, p), Push(Alt(stk.top.p, i), stk.rest);
      case IBackCommit => p, i, stk := Target(code, p), stk.top.pos, stk.rest;
      case IFailTwice =>
        stk := stk.rest;
        BacktrackNext(stk);
        fail := true;
      case IFail => fail := true;
      case IOpenCall => assert false;
      case IGiveup => assert false;
      }
      if fail { p, i, stk := PopAlternative(stk); }
      n := n - 1;
    }
    res := Fail;
  }
}
