/**
 * The receiving side of a harbor connection: a handshake byte, then frames with a length of four
 * bytes whose first is zero. Messages that wait for the handshake are sent when it comes.
 */
module Harbor {
  import opened Framing
  import opened Words

  datatype Phase = Handshake | Header(got: bytes) | Content(length: nat, got: bytes) | Down

  datatype Fed = Fed(phase: Phase, frames: seq<bytes>)

  function Then(fs: seq<bytes>, r: Fed): Fed { r.(frames := fs + r.frames) }

  /** Effect of the nonempty chunk `b` on a connection with harbor `id`. */
  function Feed(id: byte, ph: Phase, b: bytes): Fed
    requires ph.Header? ==> |ph.got| < 4
    requires ph.Content? ==> |ph.got| <= ph.length
    decreases |b|, if ph.Content? then 1 else 0
  {
    if b == [] then Fed(ph, []) else
    match ph
    case Down => Fed(Down, [])
    case Handshake => if b[0] != id then Fed(Down, []) else Feed(id, Header([]), b[1..])
    case Header(got) =>
      var need := 4 - |got|;
      if |b| < need then Fed(Header(got + b), [])
      else
        var head := got + b[..need];
        if head[0] != 0 then Fed(Down, []) else Feed(id, Content(Be(head[1..]), []), b[need..])
    case Content(length, got) =>
      var need := length - |got|;
      if |b| < need then Fed(Content(length, got + b), [])
      else Then([got + b[..need]], Feed(id, Header([]), b[need..]))
  }

  predicate Fine(ph: Phase) {
    (ph.Header? ==> |ph.got| < 4) && (ph.Content? ==> |ph.got| <= ph.length)
  }

  class Slave {
    const id: byte
    var phase: Phase
    var queue: seq<bytes>
    var outbox: seq<bytes>

    constructor (id: byte)
      ensures phase == Handshake && queue == [] && outbox == [] && this.id == id
    {
      this.id, phase, queue, outbox := id, Handshake, [], [];
    }

    /** `dispatch_queue` */
    method DispatchQueue()
      modifies `queue, `outbox
      ensures queue == [] && outbox == old(outbox) + old(queue)
    {
      while queue != []
        invariant outbox + queue == old(outbox) + old(queue)
        decreases |queue|
      {
        outbox := outbox + [queue[0]];
        queue := queue[1..];
      }
    }

    /** `remote_send_handle` for this harbor: queue the message until the handshake, then send. */
    method SendHandle(msg: bytes) returns (kept: bool)
      modifies `queue, `outbox
      ensures phase == Handshake ==> kept && queue == old(queue) + [msg] && outbox == old(outbox)
      ensures phase != Handshake && phase != Down ==> !kept && outbox == old(outbox) + [msg] && queue == old(queue)
      ensures phase == Down ==> !kept && outbox == old(outbox) && queue == old(queue)
    {
      kept := false;
      if phase == Handshake {
        queue := queue + [msg];
        kept := true;
      } else if phase != Down {
        outbox := outbox + [msg];
      }
    }

    /** `push_socket_data`: the cases of the switch fall through. */
    method PushSocketData(chunk: bytes) returns (frames: seq<bytes>)
      requires chunk != [] && Fine(phase)
      modifies this
      ensures Fine(phase) && Fed(phase, frames) == Feed(id, old(phase), chunk)
      ensures old(phase) == Handshake && chunk[0] == id ==> queue == [] && outbox == old(outbox) + old(queue)
      ensures !(old(phase) == Handshake && chunk[0] == id) ==> queue == old(queue) && outbox == old(outbox)
    {
      frames := [];
      var buffer := chunk;
      if phase == Down {
        return;
      }
      if phase == Handshake {
        if buffer[0] != id {
          phase := Down;
          return;
        }
        buffer := buffer[1..];
        phase := Header([]);
        DispatchQueue();
      }
      frames := Receive(buffer);
    }

    /** The loop after the handshake. */
    method Receive(chunk: bytes) returns (frames: seq<bytes>)
      requires Fine(phase) && !phase.Handshake? && !phase.Down?
      modifies `phase
      ensures Fine(phase) && Fed(phase, frames) == Feed(id, old(phase), chunk)
    {
      frames := [];
      var buffer := chunk;
      NoneBefore(Feed(id, phase, chunk));
      while buffer != []
        invariant Fine(phase) && !phase.Handshake? && !phase.Down?
        invariant Feed(id, old(phase), chunk) == Then(frames, Feed(id, phase, buffer))
        decreases |buffer|, if phase.Content? then 1 else 0
      {
        assert frames + [] == frames;
        if phase.Header? {
          var need := 4 - |phase.got|;
          if |buffer| < need {
            phase := Header(phase.got + buffer);
            return;
          }
          var size := phase.got + buffer[..need];
          if size[0] != 0 {
            phase := Down;
            return;
          }
          phase := Content(Be(size[1..]), []);
          buffer := buffer[need..];
        } else {
          var need := phase.length - |phase.got|;
          if |buffer| < need {
            phase := Content(phase.length, phase.got + buffer);
            return;
          }
          var frame := phase.got + buffer[..need];
          Regroup(frames, [frame], Feed(id, Header([]), buffer[need..]).frames);
          frames := frames + [frame];
          phase := Header([]);
          buffer := buffer[need..];
        }
      }
      assert frames + [] == frames;
    }
  }

  // ---- any cut

  /** A connection may be fed in parts. */
  lemma {:induction false} FeedAppend(id: byte, ph: Phase, a: bytes, b: bytes)
    requires Fine(ph)
    ensures var r := Feed(id, ph, a);
      Fine(r.phase) && Feed(id, ph, a + b) == Then(r.frames, Feed(id, r.phase, b))
    decreases |a|, 2
  {
    hide Be;
    if a == [] {
      assert a + b == b;
      NoneBefore(Feed(id, ph, b));
    } else {
      NoneBefore(Feed(id, ph, a + b));
      match ph
      case Down => NoneBefore(Feed(id, Down, b));
      case Handshake =>
        NoneBefore(Feed(id, Down, b));
        if a[0] == id {
          assert (a + b)[1..] == a[1..] + b;
          FeedAppend(id, Header([]), a[1..], b);
        }
      case Header(got) => HeaderAppend(id, got, a, b);
      case Content(length, got) => ContentAppend(id, length, got, a, b);
    }
  }

  lemma NoneBefore(r: Fed)
    ensures Then([], r) == r
  {
    assert [] + r.frames == r.frames;
  }

  lemma {:induction false} HeaderAppend(id: byte, got: bytes, a: bytes, b: bytes)
    requires |got| < 4 && a != []
    ensures var r := Feed(id, Header(got), a);
      Fine(r.phase) && Feed(id, Header(got), a + b) == Then(r.frames, Feed(id, r.phase, b))
    decreases |a|, 0
  {
    var need := 4 - |got|;
    NoneBefore(Feed(id, Header(got), a + b));
    if |a| < need {
      MoreHeader(id, got, a, b);
    } else {
      Slices(a, b, 0, need);
      if (got + a[..need])[0] != 0 {
        NoneBefore(Feed(id, Down, b));
      } else {
        FeedAppend(id, Content(Be((got + a[..need])[1..]), []), a[need..], b);
      }
    }
  }

  lemma MoreHeader(id: byte, got: bytes, a: bytes, b: bytes)
    requires |got| + |a| < 4 && a != []
    ensures Feed(id, Header(got), a + b) == Feed(id, Header(got + a), b)
  {
    if b == [] {
      assert a + b == a;
    } else if |got| + |a| + |b| < 4 {
      assert got + (a + b) == got + a + b;
    } else {
      var n, m := 4 - |got|, 4 - |got + a|;
      assert got + (a + b)[..n] == got + a + b[..m];
      assert (a + b)[n..] == b[m..];
    }
  }

  lemma {:induction false} ContentAppend(id: byte, length: nat, got: bytes, a: bytes, b: bytes)
    requires |got| <= length && a != []
    ensures var r := Feed(id, Content(length, got), a);
      Fine(r.phase) && Feed(id, Content(length, got), a + b) == Then(r.frames, Feed(id, r.phase, b))
    decreases |a|, 1
  {
    var need := length - |got|;
    NoneBefore(Feed(id, Content(length, got), a + b));
    if |a| < need {
      MoreContent(id, length, got, a, b);
    } else if need > 0 {
      Slices(a, b, 0, need);
      FeedAppend(id, Header([]), a[need..], b);
      var r := Feed(id, Header([]), a[need..]);
      Regroup([got + a[..need]], r.frames, Feed(id, r.phase, b).frames);
    } else {
      Slices(a, b, 0, 0);
      assert a[0..] == a && (a + b)[0..] == a + b;
      HeaderAppend(id, [], a, b);
      var r := Feed(id, Header([]), a);
      Regroup([got + a[..0]], r.frames, Feed(id, r.phase, b).frames);
    }
  }

  lemma MoreContent(id: byte, length: nat, got: bytes, a: bytes, b: bytes)
    requires |got| + |a| < length && a != []
    ensures Feed(id, Content(length, got), a + b) == Feed(id, Content(length, got + a), b)
  {
    if b == [] {
      assert a + b == a;
    } else if |got| + |a| + |b| < length {
      assert got + (a + b) == got + a + b;
    } else {
      var n, m := length - |got|, length - |got + a|;
      assert got + (a + b)[..n] == got + a + b[..m];
      assert (a + b)[n..] == b[m..];
    }
  }

  /** Frames that come out while `chunks` go in. */
  function Receives(id: byte, ph: Phase, chunks: seq<bytes>): seq<bytes>
    requires Fine(ph)
    decreases |chunks|
  {
    if chunks == [] then [] else
    var r := Feed(id, ph, chunks[0]);
    if Fine(r.phase) then r.frames + Receives(id, r.phase, chunks[1..]) else []
  }

  lemma FedNothing(id: byte, ph: Phase)
    requires Fine(ph)
    ensures Feed(id, ph, []) == Fed(ph, [])
  {
  }

  lemma {:induction false} ReceivesFeed(id: byte, ph: Phase, chunks: seq<bytes>)
    requires Fine(ph)
    ensures Receives(id, ph, chunks) == Feed(id, ph, Join(chunks)).frames
    decreases |chunks|
  {
    hide Feed;
    if chunks == [] {
      FedNothing(id, ph);
    } else {
      FeedAppend(id, ph, chunks[0], Join(chunks[1..]));
      ReceivesFeed(id, Feed(id, ph, chunks[0]).phase, chunks[1..]);
    }
  }

  /** A last frame of length 0 waits for more data. */
  predicate Waits(fs: seq<bytes>) { fs != [] && fs[|fs| - 1] == [] }

  lemma Length24(n: nat)
    requires n < 0x100_0000
    ensures var h := ToBe(n, 4); h[0] == 0 && Be(h[1..]) == n
  {
    hide Be;
    var h := ToBe(n, 4);
    assert Power(4) == 256 * Power(3) && Power(3) == 256 * Power(2) && Power(2) == 256 * Power(1) && Power(1) == 256;
    BeBack(n, 3);
    Shorter(n, 3);
  }

  lemma {:induction false} Shorter(n: nat, w: nat)
    requires n < Power(w)
    ensures ToBe(n, w + 1) == [0] + ToBe(n, w)
  {
    if w == 0 {
      assert ToBe(n, 1) == ToBe(n / 256, 0) + [n % 256];
    } else {
      Shorter(n / 256, w - 1);
      assert [0] + (ToBe(n / 256, w - 1) + [n % 256]) == ([0] + ToBe(n / 256, w - 1)) + [n % 256];
    }
  }

  lemma {:induction false} FeedStream(id: byte, fs: seq<bytes>)
    requires forall i :: 0 <= i < |fs| ==> |fs[i]| < 0x100_0000
    ensures Feed(id, Header([]), Stream(4, fs)) ==
      if Waits(fs) then Fed(Content(0, []), fs[..|fs| - 1]) else Fed(Header([]), fs)
  {
    hide Feed, ToBe, Be;
    if fs == [] {
      FedNothing(id, Header([]));
    } else {
      FeedStream(id, fs[1..]);
      OneFrame(id, fs[0], Stream(4, fs[1..]));
      assert Stream(4, fs) == ToBe(|fs[0]|, 4) + (fs[0] + Stream(4, fs[1..]));
      if |fs| == 1 {
        FedNothing(id, Header([]));
        assert fs == [fs[0]] && [fs[0]] + [] == fs && fs[..0] == [];
      } else {
        assert Stream(4, fs[1..]) != [];
        Front(fs);
      }
    }
  }

  lemma Front(fs: seq<bytes>)
    requires |fs| > 1
    ensures [fs[0]] + fs[1..] == fs && Waits(fs) == Waits(fs[1..])
    ensures [fs[0]] + fs[1..][..|fs[1..]| - 1] == fs[..|fs| - 1]
  {
  }

  /** One frame at the start of the data; an empty one is only seen once more data is there. */
  lemma OneFrame(id: byte, f: bytes, t: bytes)
    requires |f| < 0x100_0000
    ensures Feed(id, Header([]), ToBe(|f|, 4) + (f + t)) ==
      if f + t == [] then Fed(Content(0, []), []) else Then([f], Feed(id, Header([]), t))
  {
    hide Feed, Be;
    var h := ToBe(|f|, 4);
    Length24(|f|);
    FeedAppend(id, Header([]), h, f + t);
    OneHeader(id, h);
    NoneBefore(Feed(id, Content(|f|, []), f + t));
    OneContent(id, f, t);
  }

  lemma OneHeader(id: byte, h: bytes)
    requires |h| == 4 && h[0] == 0
    ensures Feed(id, Header([]), h) == Fed(Content(Be(h[1..]), []), [])
  {
    assert [] + h[..4] == h && h[4..] == [];
  }

  lemma OneContent(id: byte, f: bytes, t: bytes)
    ensures Feed(id, Content(|f|, []), f + t) ==
      if f + t == [] then Fed(Content(0, []), []) else Then([f], Feed(id, Header([]), t))
  {
    assert [] + (f + t)[..|f|] == f && (f + t)[|f|..] == t;
  }

  /** However the bytes are cut, the frames after the handshake come out in order; only an empty last
      frame is held back. */
  lemma AnyCut(id: byte, fs: seq<bytes>, chunks: seq<bytes>)
    requires (forall i :: 0 <= i < |fs| ==> |fs[i]| < 0x100_0000) && Join(chunks) == [id] + Stream(4, fs)
    ensures Receives(id, Handshake, chunks) == fs <==> !Waits(fs)
    ensures Waits(fs) ==> Receives(id, Handshake, chunks) == fs[..|fs| - 1]
  {
    ReceivesFeed(id, Handshake, chunks);
    assert ([id] + Stream(4, fs))[1..] == Stream(4, fs);
    FeedStream(id, fs);
  }
}
