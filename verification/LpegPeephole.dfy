/**
 * The peephole pass: labels are forwarded through chains of jumps, and a jump to an instruction
 * that itself always leaves becomes that instruction. The pass changes no answer of the machine.
 */
module LpegPeephole {
  import opened LpegTree
  import opened LpegVm
  import opened LpegCodegen
  import opened LpegCorrect
  import opened LpegHead
  import opened LpegSettle

  ghost function FinalTarget(code: Code, p: int): int {
    if Settles(code, p) then
      var n: nat :| !IsOp(code, Follow(code, p, n), IJmp);
      Follow(code, p, n)
    else p
  }

  predicate LabelOp(op: Opcode) {
    op.IChoice? || op.ICall? || op.ICommit? || op.IPartialCommit? || op.IBackCommit?
    || op.ITestChar? || op.ITestSet? || op.ITestAny?
  }

  /** Instructions that leave on their own, without a label. */
  predicate Leaves(op: Opcode) { op.IRet? || op.IFail? || op.IFailTwice? || op.IEnd? }

  predicate LeavesByLabel(op: Opcode) { op.ICommit? || op.IPartialCommit? || op.IBackCommit? }

  ghost function PeepLabel(code: Code, i: nat): (r: Code)
    requires HasOff(code, i)
    ensures |r| == |code|
  {
    code[i + 1 := Off(FinalTarget(code, Target(code, i)) - i)]
  }

  ghost function PeepAt(code: Code, i: nat): (r: Code)
    requires i < |code| && code[i].Op?
    ensures |r| == |code|
  {
    if !HasOff(code, i) then code
    else if LabelOp(code[i].op) then PeepLabel(code, i)
    else if code[i].op == IJmp then
      var ft := FinalTarget(code, i);
      if !(0 <= ft < |code| && code[ft].Op?) then code[i + 1 := Off(ft - i)]
      else if Leaves(code[ft].op) then code[i := code[ft]][i + 1 := I(IAny)]
      else if LeavesByLabel(code[ft].op) && HasOff(code, ft) then
        var fft := FinalTarget(code, Target(code, ft));
        PeepLabel(code[i := code[ft]][i + 1 := Off(fft - i)], i)
      else code[i + 1 := Off(ft - i)]
    else code
  }

  ghost function PeepFrom(code: Code, i: nat): (r: Code)
    ensures |r| == |code|
    decreases |code| - i
  {
    if i >= |code| || !code[i].Op? then code
    else
      var c := PeepAt(code, i);
      if c[i].Op? then PeepFrom(c, i + SizeI(c[i].op)) else c
  }

  lemma FinalFwd(code: Code, p: int)
    ensures Fwd(code, p, FinalTarget(code, p))
    ensures Settles(code, p) ==> !IsOp(code, FinalTarget(code, p), IJmp)
  {
    FwdRefl(code, p);
  }

  lemma SettlesAll(code: Code, x: int)
    requires Settled(code)
    ensures Settles(code, x)
  {
    if !(0 <= x <= |code|) { NotJump(code, x); }
  }

  /** A chain ends in one place only. */
  lemma FinalUnique(code: Code, p: int, n: nat)
    requires !IsOp(code, Follow(code, p, n), IJmp)
    ensures FinalTarget(code, p) == Follow(code, p, n)
  {
    var m: nat :| !IsOp(code, Follow(code, p, m), IJmp) && FinalTarget(code, p) == Follow(code, p, m);
    FollowSplit(code, p, n, m);
    FollowSplit(code, p, m, n);
    assert n + m == m + n;
  }

  // ------------------------------------------------------------------ simulation

  ghost predicate EntryRel(code: Code, e: Entry, e': Entry) {
    match e
    case Ret(p) => e'.Ret? && Fwd(code, p, e'.p)
    case Alt(p, pos) => e'.Alt? && Fwd(code, p, e'.p) && e'.pos == pos
  }

  ghost predicate StackRel(code: Code, stk: Stack, stk': Stack) {
    match stk
    case Bottom => stk' == Bottom
    case Push(e, rest) => stk'.Push? && EntryRel(code, e, stk'.top) && StackRel(code, rest, stk'.rest)
  }

  ghost predicate StateRel(code: Code, st: State, st': State) {
    Fwd(code, st.p, st'.p) && st'.i == st.i && StackRel(code, st.stk, st'.stk)
  }

  ghost predicate OutRel(code: Code, o: Outcome, o': Outcome) {
    match o
    case Next(st) => o'.Next? && StateRel(code, st, o'.st)
    case Done(r) => o' == o
    case Stuck => true
  }

  lemma {:induction false} StackRefl(code: Code, stk: Stack)
    ensures StackRel(code, stk, stk)
  {
    if stk.Push? {
      FwdRefl(code, stk.top.p);
      StackRefl(code, stk.rest);
    }
  }

  lemma {:induction false} BacktrackRel(code: Code, stk: Stack, stk': Stack)
    requires StackRel(code, stk, stk')
    ensures OutRel(code, Backtrack(stk), Backtrack(stk'))
  {
    if stk.Push? && stk.top.Ret? { BacktrackRel(code, stk.rest, stk'.rest); }
  }

  /** The instruction at `q` of `new` does what the one at `p` of `code` does, up to forwarding. */
  ghost predicate InstrRel(code: Code, p: int, new': Code, q: int) {
    0 <= p < |code| && code[p].Op? && 0 <= q < |new'| && new'[q] == code[p]
    && code[p].op != IJmp
    && (p == q || Leaves(code[p].op) || LeavesByLabel(code[p].op))
    && (LabelOp(code[p].op) && HasOff(code, p) ==> HasOff(new', q) && Fwd(code, Target(code, p), Target(new', q)))
    && ((code[p].op == ISet || code[p].op == ISpan) && p + 1 < |code| && code[p + 1].Buf? ==> q + 1 < |new'| && new'[q + 1] == code[p + 1])
    && (code[p].op == ITestSet && p + 2 < |code| && code[p + 2].Buf? && HasOff(code, p) ==> q + 2 < |new'| && new'[q + 2] == code[p + 2])
  }

  lemma StepRel(code: Code, new': Code, s: seq<byte>, p: int, q: int, i: nat, stk: Stack, stk': Stack)
    requires InstrRel(code, p, new', q) && StackRel(code, stk, stk')
    ensures OutRel(code, Step(code, s, State(p, i, stk)), Step(new', s, State(q, i, stk')))
  {
    hide Step, OutRel, StackRel;
    if i > |s| {
      BehindSubject(code, new', s, p, q, i, stk, stk');
    } else if LabelOp(code[p].op) {
      LabelStepRel(code, new', s, p, q, i, stk, stk');
    } else {
      PlainStepRel(code, new', s, p, q, i, stk, stk');
    }
  }

  lemma BehindSubject(code: Code, new': Code, s: seq<byte>, p: int, q: int, i: nat, stk: Stack, stk': Stack)
    requires InstrRel(code, p, new', q) && i > |s|
    ensures OutRel(code, Step(code, s, State(p, i, stk)), Step(new', s, State(q, i, stk')))
  {}

  lemma LabelStepRel(code: Code, new': Code, s: seq<byte>, p: int, q: int, i: nat, stk: Stack, stk': Stack)
    requires InstrRel(code, p, new', q) && StackRel(code, stk, stk') && i <= |s| && LabelOp(code[p].op)
    ensures OutRel(code, Step(code, s, State(p, i, stk)), Step(new', s, State(q, i, stk')))
  {
    hide Follow, Fwd, Settles, SpanEnd, Backtrack, Advance;
    FwdRefl(code, p + 2);
    FwdRefl(code, p + 1 + CHARSETINSTSIZE);
  }

  lemma PlainStepRel(code: Code, new': Code, s: seq<byte>, p: int, q: int, i: nat, stk: Stack, stk': Stack)
    requires InstrRel(code, p, new', q) && StackRel(code, stk, stk') && i <= |s| && !LabelOp(code[p].op)
    ensures OutRel(code, Step(code, s, State(p, i, stk)), Step(new', s, State(q, i, stk')))
  {
    hide Step, OutRel, StackRel;
    BacktrackRel(code, stk, stk');
    if Leaves(code[p].op) {
      LeaveStepRel(code, new', s, p, q, i, stk, stk');
    } else {
      ForwardStepRel(code, new', s, p, i, stk, stk');
    }
  }

  lemma LeaveStepRel(code: Code, new': Code, s: seq<byte>, p: int, q: int, i: nat, stk: Stack, stk': Stack)
    requires InstrRel(code, p, new', q) && StackRel(code, stk, stk') && i <= |s| && Leaves(code[p].op)
    ensures OutRel(code, Step(code, s, State(p, i, stk)), Step(new', s, State(q, i, stk')))
  {
    hide Follow, Fwd, Settles, SpanEnd, Backtrack, Branch, Advance;
    BacktrackRel(code, stk, stk');
    if stk.Push? { BacktrackRel(code, stk.rest, stk'.rest); }
  }

  lemma ForwardStepRel(code: Code, new': Code, s: seq<byte>, p: int, i: nat, stk: Stack, stk': Stack)
    requires InstrRel(code, p, new', p) && StackRel(code, stk, stk') && i <= |s|
    requires !LabelOp(code[p].op) && !Leaves(code[p].op)
    requires OutRel(code, Backtrack(stk), Backtrack(stk'))
    ensures OutRel(code, Step(code, s, State(p, i, stk)), Step(new', s, State(p, i, stk')))
  {
    hide Follow, Fwd, Settles, SpanEnd, Backtrack, Branch, StackRel;
    FwdRefl(code, p + 1);
    FwdRefl(code, p + CHARSETINSTSIZE);
  }

  lemma {:induction false} RunFollow(code: Code, s: seq<byte>, p: int, n: nat, i: nat, stk: Stack, k: nat) returns (m: nat)
    requires Run(code, s, State(p, i, stk), k) != Out
    ensures m <= k && Run(code, s, State(Follow(code, p, n), i, stk), m) == Run(code, s, State(p, i, stk), k)
    ensures Follow(code, p, n) != p ==> m < k
    decreases n
  {
    m := k;
    if n > 0 && IsOp(code, p, IJmp) && HasOff(code, p) {
      m := RunFollow(code, s, Target(code, p), n - 1, i, stk, k - 1);
    }
  }

  /** What one update of the pass does to the instruction at `p`: it stays (with its label
      forwarded), or it was the jump at `a`, which is shortened or replaced by its destination. */
  lemma PeepInstr(code: Code, a: nat, p: int)
    requires Settled(code) && a < |code| && code[a].Op? && 0 <= p < |code| && code[p].Op? && code[p].op != IJmp
    ensures InstrRel(code, p, PeepAt(code, a), p)
  {
    hide Settled, Follow, Settles, Fwd, FinalTarget;
    FwdAll(code, p);
    SettlesAll(code, p);
    if HasOff(code, p) { FinalFwd(code, Target(code, p)); }
  }

  lemma FwdAll(code: Code, p: int)
    ensures HasOff(code, p) ==> Fwd(code, Target(code, p), Target(code, p))
  {
    if HasOff(code, p) { FwdRefl(code, Target(code, p)); }
  }

  lemma PeepOtherJump(code: Code, a: nat, p: int)
    requires a < |code| && code[a].Op? && p != a && IsOp(code, p, IJmp) && HasOff(code, p)
    ensures var c := PeepAt(code, a); IsOp(c, p, IJmp) && HasOff(c, p) && Target(c, p) == Target(code, p)
  {
    hide FinalTarget;
  }

  lemma PeepJump(code: Code, a: nat)
    requires Settled(code) && IsOp(code, a, IJmp)
    ensures var c, ft := PeepAt(code, a), FinalTarget(code, a);
            HasOff(code, a) && ft != a && Fwd(code, a, ft) && !IsOp(code, ft, IJmp)
            && (InstrRel(code, ft, c, a) || IsLabel(c, a, IJmp, ft))
  {
    SettlesAll(code, a);
    FinalFwd(code, a);
    var ft := FinalTarget(code, a);
    if 0 <= ft < |code| && code[ft].Op? && LeavesByLabel(code[ft].op) && HasOff(code, ft) {
      var t := Target(code, ft);
      SettlesAll(code, t);
      FinalFwd(code, t);
      RedoChangesNothing(code, a, ft);
    }
  }

  /** Running the pass again on the instruction just put in place of a jump changes nothing. */
  lemma RedoChangesNothing(code: Code, a: nat, ft: int)
    requires Settled(code) && IsOp(code, a, IJmp) && HasOff(code, a)
    requires 0 <= ft < |code| && code[ft].Op? && LeavesByLabel(code[ft].op) && HasOff(code, ft)
    ensures var fft := FinalTarget(code, Target(code, ft));
            var c := code[a := code[ft]][a + 1 := Off(fft - a)];
            PeepLabel(c, a) == c
  {
    var t := Target(code, ft);
    SettlesAll(code, t);
    FinalFwd(code, t);
    var fft := FinalTarget(code, t);
    var c := code[a := code[ft]][a + 1 := Off(fft - a)];
    assert !IsOp(c, fft, IJmp);
    assert Follow(c, fft, 0) == fft;
    FinalUnique(c, fft, 0);
    assert Target(c, a) == fft;
  }

  lemma {:induction false} PeepSettles(code: Code, a: nat, x: int, n: nat)
    requires Settled(code) && a < |code| && code[a].Op? && !IsOp(code, Follow(code, x, n), IJmp)
    ensures Settles(PeepAt(code, a), x)
    decreases n
  {
    hide Settled, Settles, FinalTarget;
    var c := PeepAt(code, a);
    if !IsOp(code, x, IJmp) {
      PeepKeepsNonJump(code, a, x);
      NotJump(c, x);
    } else {
      SettledJump(code, x);
      if x != a {
        PeepSettles(code, a, Target(code, x), n - 1);
        PeepOtherJump(code, a, x);
        JumpSettles(c, x, Target(code, x));
      } else {
        PeepJump(code, a);
        var ft := FinalTarget(code, a);
        if IsLabel(c, a, IJmp, ft) {
          PeepKeepsNonJump(code, a, ft);
          NotJump(c, ft);
          JumpSettles(c, a, ft);
        } else {
          NotJump(c, a);
        }
      }
    }
  }

  lemma SettledJump(code: Code, x: int)
    requires Settled(code) && IsOp(code, x, IJmp)
    ensures HasOff(code, x) && 0 <= Target(code, x) <= |code|
  {}

  lemma PeepKeepsNonJump(code: Code, a: nat, x: int)
    requires Settled(code) && a < |code| && code[a].Op? && !IsOp(code, x, IJmp)
    ensures !IsOp(PeepAt(code, a), x, IJmp)
  {
    hide Settled, Settles, Follow;
    var ft := FinalTarget(code, a);
    if x == a + 1 && IsOp(code, a, IJmp) { SettledJump(code, a); }
  }

  lemma PeepKeepsSettled(code: Code, a: nat)
    requires Settled(code) && a < |code| && code[a].Op?
    ensures Settled(PeepAt(code, a))
  {
    hide Settles, FinalTarget, Follow, PeepAt;
    var c := PeepAt(code, a);
    forall x | IsOp(c, x, IJmp) ensures HasOff(c, x) && 0 <= Target(c, x) <= |c| {
      if !IsOp(code, x, IJmp) { PeepKeepsNonJump(code, a, x); }
      if x != a {
        PeepOtherJump(code, a, x);
      } else {
        PeepJump(code, a);
        FwdInRange(code, a, FinalTarget(code, a));
      }
    }
    forall x | 0 <= x <= |c| ensures Settles(c, x) { PeepSettlesAt(code, a, x); }
  }

  lemma PeepSettlesAt(code: Code, a: nat, x: int)
    requires Settled(code) && a < |code| && code[a].Op? && 0 <= x <= |code|
    ensures Settles(PeepAt(code, a), x)
  {
    assert Settles(code, x);
    var n: nat :| !IsOp(code, Follow(code, x, n), IJmp);
    PeepSettles(code, a, x, n);
  }

  lemma FwdInRange(code: Code, x: int, y: int)
    requires Settled(code) && 0 <= x <= |code| && Fwd(code, x, y)
    ensures 0 <= y <= |code|
  {
    var n: nat :| y == Follow(code, x, n);
    FollowInRange(code, x, n);
  }

  lemma ChaseRun(code: Code, s: seq<byte>, p: int, q: int, i: nat, stk: Stack, k: nat) returns (m: nat)
    requires Fwd(code, p, q) && Run(code, s, State(p, i, stk), k) != Out
    ensures m <= k && Run(code, s, State(q, i, stk), m) == Run(code, s, State(p, i, stk), k)
    ensures q != p ==> m < k
  {
    var n: nat :| q == Follow(code, p, n);
    m := RunFollow(code, s, p, n, i, stk, k);
  }

  /** One update of the pass keeps every answer of the machine. */
  lemma {:induction false} PeepSimulates(code: Code, a: nat, s: seq<byte>, st: State, st': State, k: nat, r: Res)
    requires Settled(code) && a < |code| && code[a].Op? && StateRel(code, st, st')
    requires Run(code, s, st, k) == r && r != Out
    ensures Halts(PeepAt(code, a), s, st', r)
    decreases k
  {
    hide Settled, Step, Follow, Fwd, Settles, PeepAt, FinalTarget, Halts;
    var c := PeepAt(code, a);
    var p, i := st'.p, st.i;
    var m := ChaseRun(code, s, st.p, p, i, st.stk, k);
    if 0 <= p < |code| { OpInside(code, s, State(p, i, st.stk), m); }
    if p == a && IsOp(code, a, IJmp) {
      PeepJump(code, a);
      var ft := FinalTarget(code, a);
      var m' := ChaseRun(code, s, a, ft, i, st.stk, m);
      if InstrRel(code, ft, c, a) {
        StepRel(code, c, s, ft, a, i, st.stk, st'.stk);
        PeepStep(code, a, s, State(ft, i, st.stk), st', m', r);
      } else {
        FwdRefl(code, ft);
        PeepSimulates(code, a, s, State(ft, i, st.stk), State(ft, i, st'.stk), m', r);
        RunJmp(c, s, a, ft, i, st'.stk, r);
      }
    } else if IsOp(code, p, IJmp) {
      SettledJump(code, p);
      PeepOtherJump(code, a, p);
      var q := Target(code, p);
      var m' := JumpRun(code, s, p, i, st.stk, m);
      FwdRefl(code, q);
      PeepSimulates(code, a, s, State(q, i, st.stk), State(q, i, st'.stk), m', r);
      RunJmp(c, s, p, q, i, st'.stk, r);
    } else if 0 <= p < |code| && code[p].Op? {
      PeepInstr(code, a, p);
      StepRel(code, c, s, p, p, i, st.stk, st'.stk);
      PeepStep(code, a, s, State(p, i, st.stk), st', m, r);
    } else {
      OutsideRuns(code, c, s, State(p, i, st.stk), st', m, r);
    }
  }

  lemma JumpRun(code: Code, s: seq<byte>, p: int, i: nat, stk: Stack, k: nat) returns (m: nat)
    requires IsOp(code, p, IJmp) && HasOff(code, p) && Run(code, s, State(p, i, stk), k) != Out
    ensures m < k && Run(code, s, State(Target(code, p), i, stk), m) == Run(code, s, State(p, i, stk), k)
  {
    m := k - 1;
  }

  lemma OpInside(code: Code, s: seq<byte>, st: State, k: nat)
    requires 0 <= st.p < |code| && Run(code, s, st, k) != Out
    ensures st.i <= |s|
  {}

  lemma OutsideRuns(code: Code, c: Code, s: seq<byte>, st: State, st': State, k: nat, r: Res)
    requires !(0 <= st.p < |code| && code[st.p].Op?) && st'.p == st.p
    requires Run(code, s, st, k) == r && r != Out
    ensures Halts(c, s, st', r)
  {
    assert Run(c, s, st', 1) == Fail;
  }

  lemma {:induction false} PeepStep(code: Code, a: nat, s: seq<byte>, st: State, st': State, k: nat, r: Res)
    requires Settled(code) && a < |code| && code[a].Op?
    requires OutRel(code, Step(code, s, st), Step(PeepAt(code, a), s, st'))
    requires Run(code, s, st, k) == r && r != Out
    ensures Halts(PeepAt(code, a), s, st', r)
    decreases k, 0
  {
    hide Settled, Step, Follow, Fwd, Settles, PeepAt;
    var c := PeepAt(code, a);
    match Step(code, s, st)
    case Next(st2) =>
      PeepSimulates(code, a, s, st2, Step(c, s, st').st, k - 1, r);
      StepBack(c, s, st', r);
    case Done(_) => StepBack(c, s, st', r);
    case Stuck =>
  }

  /** The whole pass keeps every answer of the machine. */
  lemma {:induction false} PeepFromHalts(code: Code, i: nat, s: seq<byte>, st: State, r: Res)
    requires Settled(code) && Halts(code, s, st, r)
    ensures Halts(PeepFrom(code, i), s, st, r)
    decreases |code| - i
  {
    hide Settled, Step, Follow, Settles, PeepAt;
    if i < |code| && code[i].Op? {
      var k: nat :| Run(code, s, st, k) == r;
      FwdRefl(code, st.p);
      StackRefl(code, st.stk);
      PeepSimulates(code, i, s, st, st, k, r);
      PeepKeepsSettled(code, i);
      var c := PeepAt(code, i);
      if c[i].Op? { PeepFromHalts(c, i + SizeI(c[i].op), s, st, r); }
    }
  }
}
