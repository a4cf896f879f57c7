/**
 * Lua's compressed line table: one signed byte per instruction, with absolute entries where the
 * difference does not fit or too many instructions have passed. The code generator writes it, the
 * debugger reads it.
 */
module LineInfo {
  const MAXIWTHABS := 128
  const ABSLINEINFO := -0x80
  const LIMLINEDIFF := 0x80

  type ls_byte = x: int | -0x80 <= x < 0x80

  datatype AbsLine = AbsLine(pc: nat, line: int)

  /** The part of a finished function prototype that holds lines. */
  datatype Proto = Proto(linedefined: int, lineinfo: seq<ls_byte>, abslineinfo: seq<AbsLine>)

  function Before(p: Proto, lines: seq<int>, pc: nat): int
    requires pc <= |lines|
  {
    if pc == 0 then p.linedefined else lines[pc - 1]
  }

  /** Instructions since the last absolute entry, that one included. */
  function Since(p: Proto): int {
    if p.abslineinfo == [] then |p.lineinfo| else |p.lineinfo| - p.abslineinfo[|p.abslineinfo| - 1].pc
  }

  predicate Sorted(a: seq<AbsLine>) { forall i, j :: 0 <= i < j < |a| ==> a[i].pc < a[j].pc }

  predicate Near(p: Proto, j: nat)
    requires j < |p.abslineinfo|
  {
    p.abslineinfo[j].pc <= if j == 0 then MAXIWTHABS else p.abslineinfo[j - 1].pc + MAXIWTHABS
  }

  /** Absolute entries come at least every MAXIWTHABS instructions. */
  predicate Dense(p: Proto) {
    (forall j :: 0 <= j < |p.abslineinfo| ==> Near(p, j)) && Since(p) <= MAXIWTHABS
  }

  predicate HasAbs(p: Proto, pc: nat) { exists j :: 0 <= j < |p.abslineinfo| && p.abslineinfo[j].pc == pc }

  predicate EntryFits(p: Proto, lines: seq<int>, j: nat)
    requires j < |p.abslineinfo| && |p.lineinfo| == |lines|
  {
    var a := p.abslineinfo[j];
    a.pc < |lines| && a.line == lines[a.pc] && p.lineinfo[a.pc] == ABSLINEINFO
  }

  predicate ByteFits(p: Proto, lines: seq<int>, pc: nat)
    requires pc < |lines| == |p.lineinfo|
  {
    if p.lineinfo[pc] == ABSLINEINFO then HasAbs(p, pc) else lines[pc] == Before(p, lines, pc) + p.lineinfo[pc]
  }

  /** The table `p` records `lines`. */
  predicate Records(p: Proto, lines: seq<int>) {
    && |p.lineinfo| == |lines| && Sorted(p.abslineinfo) && Dense(p)
    && (forall j :: 0 <= j < |p.abslineinfo| ==> EntryFits(p, lines, j))
    && (forall pc :: 0 <= pc < |lines| ==> ByteFits(p, lines, pc))
  }

  // ---- reading

  lemma {:induction false} EntryBound(p: Proto, j: nat)
    requires Dense(p) && j < |p.abslineinfo|
    ensures p.abslineinfo[j].pc <= MAXIWTHABS * (j + 1)
  {
    assert Near(p, j);
    if j > 0 { EntryBound(p, j - 1); }
  }

  /** The estimate of `getbaseline` is an entry at or before the instruction. */
  lemma EstimateIsLow(p: Proto, lines: seq<int>, pc: nat)
    requires Records(p, lines) && pc < |lines|
    ensures var i := pc / 128 - 1; i >= 0 ==> i < |p.abslineinfo| && p.abslineinfo[i].pc <= pc
  {
    var i := pc / MAXIWTHABS - 1;
    if i >= 0 {
      if p.abslineinfo != [] { EntryBound(p, |p.abslineinfo| - 1); }
      if i < |p.abslineinfo| { EntryBound(p, i); }
    }
  }

  /** `getbaseline`; `basepc` is -1 when the base is the line of the definition. */
  method GetBaseLine(p: Proto, pc: nat, ghost lines: seq<int>) returns (line: int, basepc: int)
    requires Records(p, lines) && pc < |lines|
    ensures -1 <= basepc <= pc && line == Before(p, lines, basepc + 1)
    ensures forall k :: basepc < k <= pc ==> p.lineinfo[k] != ABSLINEINFO
  {
    if p.abslineinfo == [] || pc < p.abslineinfo[0].pc {
      forall k | 0 <= k <= pc ensures p.lineinfo[k] != ABSLINEINFO { NoEntryYet(p, lines, k); }
      return p.linedefined, -1;
    }
    EstimateIsLow(p, lines, pc);
    var i := pc / MAXIWTHABS - 1;
    while i + 1 < |p.abslineinfo| && pc >= p.abslineinfo[i + 1].pc
      invariant -1 <= i < |p.abslineinfo| && (i >= 0 ==> p.abslineinfo[i].pc <= pc)
    {
      i := i + 1;
    }
    assert EntryFits(p, lines, i);
    basepc := p.abslineinfo[i].pc;
    line := p.abslineinfo[i].line;
    forall k | basepc < k <= pc ensures p.lineinfo[k] != ABSLINEINFO {
      if p.lineinfo[k] == ABSLINEINFO { BetweenEntries(p, lines, i, k); }
    }
  }

  lemma NoEntryYet(p: Proto, lines: seq<int>, k: nat)
    requires Records(p, lines) && k < |lines| && (p.abslineinfo == [] || k < p.abslineinfo[0].pc)
    ensures p.lineinfo[k] != ABSLINEINFO
  {
    assert ByteFits(p, lines, k);
  }

  lemma BetweenEntries(p: Proto, lines: seq<int>, i: nat, k: nat)
    requires Records(p, lines) && i < |p.abslineinfo| && p.abslineinfo[i].pc < k < |lines| && p.lineinfo[k] == ABSLINEINFO
    ensures i + 1 < |p.abslineinfo| && p.abslineinfo[i + 1].pc <= k
  {
    assert ByteFits(p, lines, k);
    var j :| 0 <= j < |p.abslineinfo| && p.abslineinfo[j].pc == k;
  }

  /** `luaG_getfuncline`: the line that was recorded for the instruction. */
  method GetFuncLine(p: Proto, pc: nat, ghost lines: seq<int>) returns (line: int)
    requires Records(p, lines) && pc < |lines|
    ensures line == lines[pc]
  {
    var basepc;
    line, basepc := GetBaseLine(p, pc, lines);
    while basepc < pc
      invariant -1 <= basepc <= pc && line == Before(p, lines, basepc + 1)
      invariant forall k :: basepc < k <= pc ==> p.lineinfo[k] != ABSLINEINFO
    {
      basepc := basepc + 1;
      assert p.lineinfo[basepc] != ABSLINEINFO && ByteFits(p, lines, basepc);
      line := line + p.lineinfo[basepc];
    }
  }

  /** `changedline` compares the two recorded lines, by whichever way it takes. */
  method ChangedLine(p: Proto, oldpc: nat, newpc: nat, ghost lines: seq<int>) returns (changed: bool)
    requires Records(p, lines) && oldpc < newpc < |lines|
    ensures changed == (lines[oldpc] != lines[newpc])
  {
    if newpc - oldpc < MAXIWTHABS / 2 {
      var delta: int, pc: nat := 0, oldpc;
      while true
        invariant oldpc <= pc < newpc && delta == lines[pc] - lines[oldpc]
        decreases newpc - pc
      {
        pc := pc + 1;
        var lineinfo := p.lineinfo[pc];
        if lineinfo == ABSLINEINFO {
          break;
        }
        assert ByteFits(p, lines, pc);
        delta := delta + lineinfo;
        if pc == newpc {
          return delta != 0;
        }
      }
    }
    var oldline := GetFuncLine(p, oldpc, lines);
    var newline := GetFuncLine(p, newpc, lines);
    changed := oldline != newline;
  }

  // ---- writing

  class FuncState {
    const linedefined: int
    var pc: nat
    var previousline: int
    var iwthabs: nat
    var nabslineinfo: nat
    var lineinfo: seq<ls_byte>
    var abslineinfo: seq<AbsLine>
    ghost var lines: seq<int>

    /** The table that the first `n` instructions would leave. */
    ghost function Table(n: nat): Proto
      requires n <= |lineinfo| && nabslineinfo <= |abslineinfo|
      reads this
    {
      Proto(linedefined, lineinfo[..n], abslineinfo[..nabslineinfo])
    }

    /** `previousline` and `iwthabs` fit the first `n` instructions. */
    ghost predicate Follows(n: nat)
      requires n <= |lineinfo| && n <= |lines| && nabslineinfo <= |abslineinfo|
      reads this
    {
      previousline == Before(Table(n), lines, n) && iwthabs == Since(Table(n))
    }

    ghost predicate Valid()
      reads this
    {
      && pc == |lines| && pc <= |lineinfo| && nabslineinfo <= |abslineinfo|
      && Records(Table(pc), lines) && Follows(pc)
    }

    /** The line of the last instruction is removed; the next one may have to be absolute. */
    ghost predicate Removed()
      reads this
    {
      && 0 < pc == |lines| && pc <= |lineinfo| && nabslineinfo <= |abslineinfo|
      && Records(Table(pc - 1), lines[..pc - 1])
      && (iwthabs == MAXIWTHABS + 1 || Follows(pc - 1))
    }

    constructor (linedefined: int)
      ensures Valid() && lines == [] && pc == 0 && this.linedefined == linedefined
    {
      this.linedefined := linedefined;
      pc, previousline, iwthabs, nabslineinfo, lineinfo, abslineinfo, lines := 0, linedefined, 0, 0, [], [], [];
    }

    /** `savelineinfo` for the instruction at `pc - 1`. */
    method SaveLineInfo(line: int)
      requires 0 < pc == |lines| && pc - 1 <= |lineinfo| && nabslineinfo <= |abslineinfo|
      requires Records(Table(pc - 1), lines[..pc - 1])
      requires iwthabs == MAXIWTHABS + 1 || Follows(pc - 1)
      modifies `previousline, `iwthabs, `nabslineinfo, `lineinfo, `abslineinfo, `lines
      ensures Valid() && lines == old(lines)[..pc - 1] + [line]
      // absolute when the difference does not fit, or after 128 instructions without such an entry
      ensures nabslineinfo == old(nabslineinfo) +
        if line - old(previousline) >= 128 || old(previousline) - line >= 128 || old(iwthabs) >= 128 then 1 else 0
    {
      hide Records, Store;
      ghost var was, ls := Table(pc - 1), lines[..pc - 1];
      var linedif := line - previousline;
      var last := pc - 1;
      var far := linedif >= LIMLINEDIFF || -linedif >= LIMLINEDIFF;
      var full := false;
      if !far {
        full := iwthabs >= MAXIWTHABS;
        iwthabs := iwthabs + 1;
      }
      if far || full {
        abslineinfo := Store(abslineinfo, nabslineinfo, AbsLine(last, line));
        nabslineinfo := nabslineinfo + 1;
        linedif := ABSLINEINFO;
        iwthabs := 1;
      }
      var change: ls_byte := linedif;
      lineinfo := Store<ls_byte>(lineinfo, last, change);
      previousline := line;
      lines := ls + [line];
      assert lineinfo[..pc] == was.lineinfo + [change];
      if far || full { RecordAbs(was, ls, line); } else { RecordDiff(was, ls, line, change); }
      assert Table(pc) == if far || full then AddAbs(was, line) else AddDiff(was, change);
    }

    /** `removelastlineinfo` */
    method RemoveLastLineInfo()
      requires Valid() && 0 < pc
      modifies `previousline, `iwthabs, `nabslineinfo
      ensures Removed() && pc - 1 <= |lineinfo|
    {
      hide Records;
      var last := pc - 1;
      ghost var table := Table(pc);
      Unrecord(table, lines);
      LastEntry(table, lines);
      LastByte(table, lines);
      if lineinfo[last] != ABSLINEINFO {
        previousline := previousline - lineinfo[last];
        iwthabs := iwthabs - 1;
      } else {
        assert abslineinfo[nabslineinfo - 1].pc == last;
        nabslineinfo := nabslineinfo - 1;
        iwthabs := MAXIWTHABS + 1;
      }
      assert Table(pc - 1).lineinfo == Drop(table).lineinfo;
      assert Table(pc - 1).abslineinfo == Drop(table).abslineinfo;
    }

    /** `luaK_code` emits an instruction for the current line. */
    method Code(line: int)
      requires Valid()
      modifies this
      ensures Valid() && lines == old(lines) + [line]
    {
      pc := pc + 1;
      lines := lines + [line];
      assert lines[..pc - 1] == old(lines);
      SaveLineInfo(line);
    }

    /** `luaK_fixline` changes the line of the last instruction. */
    method FixLine(line: int)
      requires Valid() && 0 < pc
      modifies this
      ensures Valid() && lines == old(lines)[..|old(lines)| - 1] + [line]
    {
      RemoveLastLineInfo();
      SaveLineInfo(line);
    }

    /** `removelastinstruction` and then a new instruction in its place. */
    method Replace(line: int)
      requires Valid() && 0 < pc
      modifies this
      ensures Valid() && lines == old(lines)[..|old(lines)| - 1] + [line]
    {
      RemoveLastLineInfo();
      pc := pc - 1;
      pc := pc + 1;
      SaveLineInfo(line);
    }

    /** The arrays of a finished function are cut to what is used. */
    method Close() returns (p: Proto)
      requires Valid()
      ensures p == Table(pc) && Records(p, lines)
    {
      p := Proto(linedefined, lineinfo[..pc], abslineinfo[..nabslineinfo]);
    }
  }

  /** `luaM_growvector` and an assignment. */
  function Store<T>(a: seq<T>, n: nat, x: T): (r: seq<T>)
    requires n <= |a|
    ensures |r| >= n + 1 && r[..n + 1] == a[..n] + [x]
  {
    if n < |a| then a[n := x] else a + [x]
  }

  function AddDiff(p: Proto, d: ls_byte): Proto { p.(lineinfo := p.lineinfo + [d]) }

  function AddAbs(p: Proto, line: int): Proto {
    Proto(p.linedefined, p.lineinfo + [ABSLINEINFO], p.abslineinfo + [AbsLine(|p.lineinfo|, line)])
  }

  /** The table without the last instruction. */
  function Drop(p: Proto): Proto
    requires p.lineinfo != []
  {
    var n := |p.lineinfo| - 1;
    Proto(p.linedefined, p.lineinfo[..n],
      if p.lineinfo[n] == ABSLINEINFO && p.abslineinfo != [] then p.abslineinfo[..|p.abslineinfo| - 1] else p.abslineinfo)
  }

  lemma RecordDiff(p: Proto, lines: seq<int>, line: int, d: ls_byte)
    requires Records(p, lines) && d != ABSLINEINFO && line == Before(p, lines, |lines|) + d && Since(p) < MAXIWTHABS
    ensures Records(AddDiff(p, d), lines + [line]) && Since(AddDiff(p, d)) == Since(p) + 1
  {
    var p', lines' := AddDiff(p, d), lines + [line];
    forall j | 0 <= j < |p'.abslineinfo| ensures Near(p', j) && EntryFits(p', lines', j) {
      assert Near(p, j) && EntryFits(p, lines, j);
    }
    forall pc | 0 <= pc < |lines'| ensures ByteFits(p', lines', pc) {
      if pc < |lines| { assert ByteFits(p, lines, pc); }
    }
  }

  lemma RecordAbs(p: Proto, lines: seq<int>, line: int)
    requires Records(p, lines)
    ensures Records(AddAbs(p, line), lines + [line]) && Since(AddAbs(p, line)) == 1
  {
    var p', lines' := AddAbs(p, line), lines + [line];
    var n := |p.abslineinfo|;
    forall j | 0 <= j < n ensures Near(p', j) && EntryFits(p', lines', j) {
      assert Near(p, j) && EntryFits(p, lines, j);
    }
    assert Near(p', n) && EntryFits(p', lines', n);
    forall i | 0 <= i < n ensures p.abslineinfo[i].pc < |lines| { assert EntryFits(p, lines, i); }
    forall pc | 0 <= pc < |lines'| ensures ByteFits(p', lines', pc) {
      if pc < |lines| {
        assert ByteFits(p, lines, pc);
        KeepsAbs(p, line, pc);
      } else {
        assert p'.abslineinfo[n].pc == pc;
      }
    }
  }

  lemma KeepsAbs(p: Proto, line: int, pc: nat)
    ensures HasAbs(p, pc) ==> HasAbs(AddAbs(p, line), pc)
  {
    if HasAbs(p, pc) {
      var j :| 0 <= j < |p.abslineinfo| && p.abslineinfo[j].pc == pc;
      assert AddAbs(p, line).abslineinfo[j].pc == pc;
    }
  }

  lemma LastEntry(p: Proto, lines: seq<int>)
    requires Records(p, lines) && lines != []
    ensures p.lineinfo[|lines| - 1] == ABSLINEINFO <==>
      p.abslineinfo != [] && p.abslineinfo[|p.abslineinfo| - 1].pc == |lines| - 1
  {
    var n := |lines| - 1;
    assert ByteFits(p, lines, n);
    if p.lineinfo[n] == ABSLINEINFO {
      var j :| 0 <= j < |p.abslineinfo| && p.abslineinfo[j].pc == n;
      assert EntryFits(p, lines, |p.abslineinfo| - 1);
    }
    if p.abslineinfo != [] { assert EntryFits(p, lines, |p.abslineinfo| - 1); }
  }

  lemma LastByte(p: Proto, lines: seq<int>)
    requires Records(p, lines) && lines != []
    ensures var n := |lines| - 1;
      p.lineinfo[n] != ABSLINEINFO ==> lines[n] == Before(p, lines, n) + p.lineinfo[n] && Since(p) >= 1
  {
    assert ByteFits(p, lines, |lines| - 1);
    if p.abslineinfo != [] { assert EntryFits(p, lines, |p.abslineinfo| - 1); }
  }

  lemma Unrecord(p: Proto, lines: seq<int>)
    requires Records(p, lines) && lines != []
    ensures Records(Drop(p), lines[..|lines| - 1])
    ensures p.lineinfo[|lines| - 1] != ABSLINEINFO ==> Since(Drop(p)) == Since(p) - 1
  {
    var n := |lines| - 1;
    var p', lines' := Drop(p), lines[..n];
    LastEntry(p, lines);
    var m := |p'.abslineinfo|;
    forall j | 0 <= j < m ensures Near(p', j) && EntryFits(p', lines', j) {
      assert Near(p, j) && EntryFits(p, lines, j);
      if m > 0 { assert EntryFits(p, lines, m - 1); }
    }
    if m < |p.abslineinfo| { assert Near(p, m); }
    forall pc | 0 <= pc < n ensures ByteFits(p', lines', pc) {
      assert ByteFits(p, lines, pc);
      if HasAbs(p, pc) {
        var j :| 0 <= j < |p.abslineinfo| && p.abslineinfo[j].pc == pc;
        assert p'.abslineinfo[j].pc == pc;
      }
    }
  }
}
