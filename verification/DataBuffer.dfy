/**
 * The message buffer of the gate: a list of received blocks that is read across block boundaries,
 * and the loop that takes frames off it.
 */
module DataBuffer {
  import opened Framing
  import opened Words

  const MAX_FRAME: nat := 0x100_0000

  /** The unread part of a list of blocks. */
  ghost function Unread(blocks: seq<bytes>, offset: nat): bytes {
    if blocks == [] || offset > |blocks[0]| then [] else blocks[0][offset..] + Join(blocks[1..])
  }

  lemma Within(blocks: seq<bytes>, offset: nat, n: nat)
    requires blocks != [] && offset + n <= |blocks[0]|
    ensures Unread(blocks, offset) == blocks[0][offset..offset + n] + Unread(blocks, offset + n)
  {
  }

  lemma NextBlock(blocks: seq<bytes>, offset: nat)
    requires blocks != [] && offset <= |blocks[0]|
    ensures Unread(blocks, offset) == blocks[0][offset..] + Unread(blocks[1..], 0)
  {
  }

  lemma Prefix(a: bytes, b: bytes)
    ensures (a + b)[..|a|] == a && (a + b)[|a|..] == b
  {
  }

  // ---- what the gate makes of the bytes

  datatype Gated = Gated(frames: seq<bytes>, header: int, rest: bytes, closed: bool)

  /** A length is kept in the C type int. */
  function Int32(n: nat): int { if n < 0x8000_0000 then n else n - 0x1_0000_0000 }

  /** Frames taken off `b` when the length `header` is known already (0 means it is not). A frame that
      is too long closes the connection; a frame of length 0 leaves no trace. */
  function Gate(w: nat, header: int, b: bytes): (g: Gated)
    requires w > 0
    decreases |b|, if header == 0 then 0 else 2
  {
    if header == 0 then
      if |b| < w then Gated([], 0, b, false) else Opened(w, Int32(Be(b[..w])), b[w..])
    else Opened(w, header, b)
  }

  function Opened(w: nat, h: int, b: bytes): (g: Gated)
    requires w > 0
    decreases |b|, 1
  {
    if h == 0 then Gate(w, 0, b)
    else if |b| < h || h < 0 then Gated([], h, b, false)
    else if h >= MAX_FRAME then Gated([], 0, [], true)
    else
      var g := Gate(w, 0, b[h..]);
      g.(frames := [b[..h]] + g.frames)
  }

  class Buffer {
    var header: int
    var offset: nat
    var size: nat
    var blocks: seq<bytes>

    ghost predicate Valid()
      reads this
    {
      (if blocks == [] then offset == 0 else offset <= |blocks[0]|) && size == |Contents()|
    }

    /** Bytes that are not read yet. */
    ghost function Contents(): bytes
      reads this
    {
      Unread(blocks, offset)
    }

    constructor ()
      ensures Valid() && header == 0 && Contents() == []
    {
      header, offset, size, blocks := 0, 0, 0, [];
    }

    /** `databuffer_push` */
    method Push(data: bytes)
      requires Valid()
      modifies `size, `blocks
      ensures Valid() && Contents() == old(Contents()) + data
    {
      UnreadPush(blocks, offset, data);
      size := size + |data|;
      blocks := blocks + [data];
    }

    ghost predicate Placed()
      reads this
    {
      if blocks == [] then offset == 0 else offset <= |blocks[0]|
    }

    /** Read `n` bytes of the current block, which has more; or the rest of it, and return the block. */
    method Take(n: nat) returns (part: bytes)
      requires Placed() && blocks != [] && offset + n <= |blocks[0]|
      modifies `offset, `blocks
      ensures Placed() && part + Contents() == old(Contents()) && |part| == n
      ensures old(offset) + n == |old(blocks)[0]| ==> |blocks| == |old(blocks)| - 1
    {
      var current := blocks[0];
      part := current[offset..offset + n];
      Within(blocks, offset, n);
      if offset + n == |current| {
        NextBlock(blocks, |current|);
        assert current[|current|..] + Unread(blocks[1..], 0) == Unread(blocks[1..], 0);
        blocks := blocks[1..];
        offset := 0;
      } else {
        offset := offset + n;
      }
    }

    /** `databuffer_read`: the next `sz` bytes, across blocks. */
    method Read(sz: nat) returns (buffer: bytes)
      requires Valid() && 0 < sz <= size
      modifies `size, `offset, `blocks
      ensures Valid() && buffer == old(Contents())[..sz] && Contents() == old(Contents())[sz..]
    {
      hide Unread;
      ghost var all := Contents();
      buffer := [];
      size := size - sz;
      var need := sz;
      assert [] + all == all;
      while true
        invariant Placed() && buffer + Contents() == all && |buffer| + need == sz && size == |all| - sz && 0 < need
        decreases |blocks|
      {
        NotEmpty();
        var bsz := |blocks[0]| - offset;
        var n := if bsz > need then need else bsz;
        var part := Take(n);
        Assoc(buffer, part, Contents());
        buffer := buffer + part;
        need := need - n;
        if need == 0 {
          Prefix(buffer, Contents());
          return;
        }
      }
    }

    lemma NotEmpty()
      ensures Contents() != [] ==> blocks != []
    {
    }

    /** `databuffer_readheader`: the size of the next frame once all of it is here, or a negative number. */
    method ReadHeader(w: nat) returns (n: int)
      requires Valid() && (w == 2 || w == 4)
      modifies this
      ensures Valid() && size <= old(size) && (n == 0 ==> size < old(size) && header == 0)
      ensures Gate(w, old(header), old(Contents())) == Gate(w, header, Contents())
      ensures n < 0 ==> Gate(w, header, Contents()) == Gated([], header, Contents(), false)
      ensures n >= 0 ==> n == header && n <= size
    {
      hide Unread;
      if header == 0 {
        if size < w {
          return -1;
        }
        var plen := Read(w);
        header := Int32(Be(plen));
      }
      if size < header {
        return -1;
      }
      n := header;
    }

    /** `dispatch_message` of the gate: take in a chunk and forward what is complete. */
    method Dispatch(data: bytes, w: nat) returns (out: seq<bytes>, closed: bool)
      requires Valid() && (w == 2 || w == 4)
      modifies this
      ensures Valid()
      ensures Gate(w, old(header), old(Contents()) + data) == Gated(out, header, Contents(), closed)
    {
      hide Unread, Gate;
      Push(data);
      out, closed := [], false;
      ghost var all := Gate(w, header, Contents());
      NoFrames(all);
      while true
        invariant Valid() && !closed && all == After(out, Gate(w, header, Contents()))
        decreases size
      {
        ghost var was := Gate(w, header, Contents());
        var n := ReadHeader(w);
        if n < 0 {
          assert out + [] == out;
          return;
        }
        if n > 0 {
          GateOpen(w, n, Contents());
          if n >= MAX_FRAME {
            Clear();
            assert out + [] == out;
            closed := true;
            return;
          }
          ghost var tail := Gate(w, 0, Contents()[n..]);
          var frame := Read(n);
          header := 0;
          assert out + ([frame] + tail.frames) == out + [frame] + tail.frames;
          out := out + [frame];
        }
      }
    }

    /** `databuffer_clear` */
    method Clear()
      modifies this
      ensures Valid() && header == 0 && Contents() == []
    {
      header, offset, size, blocks := 0, 0, 0, [];
    }
  }

  function After(out: seq<bytes>, g: Gated): Gated { g.(frames := out + g.frames) }

  lemma GateOpen(w: nat, n: nat, b: bytes)
    requires w > 0 && n > 0
    ensures Gate(w, n, b) == Opened(w, n, b)
  {
  }

  lemma NoFrames(g: Gated)
    ensures After([], g) == g
  {
    assert [] + g.frames == g.frames;
  }

  // ---- any cut

  function NonEmpty(fs: seq<bytes>): seq<bytes> {
    if fs == [] then [] else if fs[0] == [] then NonEmpty(fs[1..]) else [fs[0]] + NonEmpty(fs[1..])
  }

  /** The gate may be fed in parts. */
  lemma {:induction false} GateAppend(w: nat, header: int, a: bytes, b: bytes)
    requires w > 0 && !Gate(w, header, a).closed
    ensures var g := Gate(w, header, a);
      Gate(w, header, a + b) == After(g.frames, Gate(w, g.header, g.rest + b))
    decreases |a|, if header == 0 then 0 else 2
  {
    if header == 0 {
      if |a| < w {
        NoFrames(Gate(w, 0, a + b));
      } else {
        OpenedAppend(w, Int32(Be(a[..w])), a[w..], b);
        Slices(a, b, 0, w);
      }
    } else {
      OpenedAppend(w, header, a, b);
    }
  }

  lemma {:induction false} OpenedAppend(w: nat, h: int, a: bytes, b: bytes)
    requires w > 0 && !Opened(w, h, a).closed
    ensures var g := Opened(w, h, a);
      Opened(w, h, a + b) == After(g.frames, Gate(w, g.header, g.rest + b))
    decreases |a|, 1
  {
    if h == 0 {
      GateAppend(w, 0, a, b);
    } else if |a| < h || h < 0 {
      NoFrames(Opened(w, h, a + b));
    } else {
      GateAppend(w, 0, a[h..], b);
      Slices(a, b, 0, h);
      var g := Gate(w, 0, a[h..]);
      Regroup([a[..h]], g.frames, Gate(w, g.header, g.rest + b).frames);
    }
  }

  lemma {:induction false} GateStream(w: nat, fs: seq<bytes>)
    requires (w == 2 || w == 4) && Fit(w, fs) && forall i :: 0 <= i < |fs| ==> |fs[i]| < 0x100_0000
    ensures Gate(w, 0, Stream(w, fs)) == Gated(NonEmpty(fs), 0, [], false)
  {
    if fs != [] {
      GateStream(w, fs[1..]);
      var h, f, t := ToBe(|fs[0]|, w), fs[0], Stream(w, fs[1..]);
      var b := h + f + t;
      BeBack(|f|, w);
      assert b[..w] == h && b[w..] == f + t && (f + t)[..|f|] == f && (f + t)[|f|..] == t;
    }
  }

  /** Frames that the gate forwards while it is fed `chunks`, starting from what it holds. */
  function Forwards(w: nat, header: int, rest: bytes, chunks: seq<bytes>): seq<bytes>
    requires w > 0
    decreases |chunks|
  {
    if chunks == [] then [] else
    var g := Gate(w, header, rest + chunks[0]);
    if g.closed then g.frames else g.frames + Forwards(w, g.header, g.rest, chunks[1..])
  }

  lemma {:induction false} ForwardsGate(w: nat, header: int, rest: bytes, chunks: seq<bytes>)
    requires w > 0 && !Gate(w, header, rest + Join(chunks)).closed
    requires Gate(w, header, rest) == Gated([], header, rest, false)
    ensures Forwards(w, header, rest, chunks) == Gate(w, header, rest + Join(chunks)).frames
    decreases |chunks|
  {
    hide Gate;
    if chunks == [] {
      assert rest + Join(chunks) == rest;
    } else {
      var a, b := rest + chunks[0], Join(chunks[1..]);
      assert rest + Join(chunks) == a + b;
      if Gate(w, header, a).closed {
        ClosedStays(w, header, a, b);
      } else {
        var g := Gate(w, header, a);
        GateAppend(w, header, a, b);
        Settled(w, header, a);
        ForwardsGate(w, g.header, g.rest, chunks[1..]);
      }
    }
  }

  lemma {:induction false} ClosedStays(w: nat, header: int, a: bytes, b: bytes)
    requires w > 0 && Gate(w, header, a).closed
    ensures Gate(w, header, a + b).closed
    decreases |a|, if header == 0 then 0 else 2
  {
    if header == 0 {
      Slices(a, b, 0, w);
      ClosedOpened(w, Int32(Be(a[..w])), a[w..], b);
    } else {
      ClosedOpened(w, header, a, b);
    }
  }

  lemma {:induction false} ClosedOpened(w: nat, h: int, a: bytes, b: bytes)
    requires w > 0 && Opened(w, h, a).closed
    ensures Opened(w, h, a + b).closed
    decreases |a|, 1
  {
    if h == 0 {
      ClosedStays(w, 0, a, b);
    } else if h < MAX_FRAME {
      Slices(a, b, 0, h);
      ClosedStays(w, 0, a[h..], b);
    }
  }

  /** What the gate leaves yields nothing by itself. */
  lemma {:induction false} Settled(w: nat, header: int, a: bytes)
    requires w > 0 && !Gate(w, header, a).closed
    ensures var g := Gate(w, header, a); Gate(w, g.header, g.rest) == Gated([], g.header, g.rest, false)
    decreases |a|, if header == 0 then 0 else 2
  {
    if header == 0 {
      if |a| >= w { SettledOpened(w, Int32(Be(a[..w])), a[w..]); }
    } else {
      SettledOpened(w, header, a);
    }
  }

  lemma {:induction false} SettledOpened(w: nat, h: int, a: bytes)
    requires w > 0 && !Opened(w, h, a).closed
    ensures var g := Opened(w, h, a); Gate(w, g.header, g.rest) == Gated([], g.header, g.rest, false)
    decreases |a|, 1
  {
    if h == 0 {
      Settled(w, 0, a);
    } else if h > 0 && |a| >= h {
      Settled(w, 0, a[h..]);
    }
  }

  /** However a stream is cut, the gate forwards its frames in order, except that it drops empty ones. */
  lemma AnyCut(w: nat, fs: seq<bytes>, chunks: seq<bytes>)
    requires (w == 2 || w == 4) && Fit(w, fs) && (forall i :: 0 <= i < |fs| ==> |fs[i]| < 0x100_0000)
    requires Join(chunks) == Stream(w, fs)
    ensures Forwards(w, 0, [], chunks) == NonEmpty(fs)
    ensures Forwards(w, 0, [], chunks) == fs <==> [] !in fs
  {
    GateStream(w, fs);
    assert [] + Join(chunks) == Join(chunks);
    ForwardsGate(w, 0, [], chunks);
    NonEmptyAll(fs);
  }

  /** A frame of 16 MB or more, once it is complete, closes the connection. */
  lemma TooLongCloses(f: bytes, rest: bytes)
    requires 0x100_0000 <= |f| < 0x8000_0000
    ensures Gate(4, 0, ToBe(|f|, 4) + f + rest) == Gated([], 0, [], true)
  {
    hide ToBe, Be;
    var b := ToBe(|f|, 4) + f + rest;
    Powers();
    BeBack(|f|, 4);
    assert b[..4] == ToBe(|f|, 4) && b[4..] == f + rest;
  }

  lemma {:induction false} NonEmptyAll(fs: seq<bytes>)
    ensures NonEmpty(fs) == fs <==> [] !in fs
    ensures |NonEmpty(fs)| <= |fs|
  {
    if fs != [] {
      NonEmptyAll(fs[1..]);
      assert fs == [fs[0]] + fs[1..];
      if fs[0] != [] && NonEmpty(fs) == fs { assert NonEmpty(fs[1..]) == NonEmpty(fs)[1..] == fs[1..]; }
    }
  }

  lemma UnreadPush(blocks: seq<bytes>, offset: nat, b: bytes)
    requires if blocks == [] then offset == 0 else offset <= |blocks[0]|
    ensures Unread(blocks + [b], offset) == Unread(blocks, offset) + b
  {
    if blocks == [] {
      assert ([] + [b])[1..] == [];
    } else {
      assert (blocks + [b])[1..] == blocks[1..] + [b];
      JoinPush(blocks[1..], b);
    }
  }
}
