/**
 * The packet filter of `netpack`: records of unfinished packets in a hash by descriptor, and the
 * packets that are ready. A chunk of data yields exactly the frames that it completes.
 */
module NetPack {
  import opened Framing
  import opened Words

  const HASHSIZE: nat := 4096

  /** `read < 0` means that only the first byte of the length, `header`, has come. */
  datatype Uncomplete = Uncomplete(fd: int, read: int, header: byte, size: nat, buffer: bytes)

  datatype Packet = Packet(fd: int, data: bytes)

  /** What `filter` returns: nothing yet, one packet, or that packets are in the queue. */
  datatype Answer = Nothing | Data(data: bytes) | More

  /** `hash_fd`: the shifts keep the sign, and the sum is taken as an unsigned word. */
  function HashFd(fd: int): (h: nat)
    ensures h < HASHSIZE
  {
    (fd / 0x100_0000 + fd / 0x1000 + fd) % HASHSIZE
  }

  /** The bytes that a record stands for. */
  function Held(u: Uncomplete): bytes {
    if u.read < 0 then [u.header] else ToBe(u.size, 2) + u.buffer
  }

  predicate Sound(u: Uncomplete) {
    if u.read < 0 then u.read == -1 else u.read == |u.buffer| && |u.buffer| < u.size < 0x1_0000
  }

  function Find(chain: seq<Uncomplete>, fd: int): bytes {
    if chain == [] then [] else if chain[0].fd == fd then Held(chain[0]) else Find(chain[1..], fd)
  }

  function Without(chain: seq<Uncomplete>, fd: int): seq<Uncomplete> {
    if chain == [] then [] else if chain[0].fd == fd then chain[1..] else [chain[0]] + Without(chain[1..], fd)
  }

  /** At most one record for each descriptor. */
  predicate Single(chain: seq<Uncomplete>) { forall i, j :: 0 <= i < j < |chain| ==> chain[i].fd != chain[j].fd }

  lemma {:induction false} FindWithout(chain: seq<Uncomplete>, fd: int)
    requires Single(chain)
    ensures Find(Without(chain, fd), fd) == [] && Single(Without(chain, fd))
    ensures forall g :: g != fd ==> Find(Without(chain, fd), g) == Find(chain, g)
    ensures forall u :: u in Without(chain, fd) ==> u in chain && u.fd != fd
  {
    if chain != [] {
      if chain[0].fd == fd {
        FindNone(chain[1..], fd);
      } else {
        FindWithout(chain[1..], fd);
        var w := Without(chain, fd);
        assert w[1..] == Without(chain[1..], fd);
        assert forall i :: 0 <= i < |w[1..]| ==> w[1..][i] in w[1..];
      }
    }
  }

  lemma {:induction false} FindNone(chain: seq<Uncomplete>, fd: int)
    requires forall u :: u in chain ==> u.fd != fd
    ensures Find(chain, fd) == []
  {
    if chain != [] { FindNone(chain[1..], fd); }
  }

  lemma {:induction false} FindAt(chain: seq<Uncomplete>, k: nat)
    requires Single(chain) && k < |chain|
    ensures Find(chain, chain[k].fd) == Held(chain[k])
    ensures Without(chain, chain[k].fd) == chain[..k] + chain[k + 1..]
  {
    if k > 0 {
      FindAt(chain[1..], k - 1);
      assert chain[..k] == [chain[0]] + chain[1..][..k - 1];
    } else {
      assert chain[..0] + chain[1..] == chain[1..];
    }
  }

  lemma Two(b: bytes)
    requires |b| >= 2
    ensures Size(2, b) == 256 * (b[0] as int) + b[1]
  {
    assert b[..2] == [b[0], b[1]];
    assert [b[0], b[1]][..1] == [b[0]];
    assert Be([b[0]]) == 256 * Be([]) + b[0];
  }

  lemma TwoBack(n: nat)
    requires n < 0x1_0000
    ensures ToBe(n, 2) == [n / 256, n % 256] && Be(ToBe(n, 2)) == n
  {
    assert ToBe(n / 256, 1) == ToBe(n / 256 / 256, 0) + [n / 256 % 256];
    assert Power(2) == 256 * Power(1) && Power(1) == 256 * Power(0);
    BeBack(n, 2);
  }

  /** A sound record holds no whole frame. */
  lemma HeldPartial(u: Uncomplete)
    requires Sound(u)
    ensures !Whole(2, Held(u)) && Held(u) != []
  {
    if u.read >= 0 {
      TwoBack(u.size);
      assert (ToBe(u.size, 2) + u.buffer)[..2] == ToBe(u.size, 2);
    }
  }

  /** `read_size` */
  function ReadSize(b: bytes): nat
    requires |b| >= 2
  {
    256 * (b[0] as int) + b[1]
  }

  lemma TooShort(b: bytes)
    requires |b| < 2
    ensures Parse(2, b) == Parsed([], b)
  {
  }

  lemma ParseStep(b: bytes)
    requires |b| >= 2
    ensures var n := ReadSize(b);
      Parse(2, b) == if |b| - 2 < n then Parsed([], b)
                     else Parsed([b[2..2 + n]] + Parse(2, b[2 + n..]).frames, Parse(2, b[2 + n..]).rest)
  {
    hide Size, Be;
    Two(b);
  }

  /** The length bytes, what was read and what comes now. */
  lemma ParseHeld(n: nat, old': bytes, b: bytes)
    requires n < 0x1_0000 && |old'| <= n
    ensures var need := n - |old'|;
      Parse(2, ToBe(n, 2) + old' + b) ==
        if |b| < need then Parsed([], ToBe(n, 2) + (old' + b))
        else Parsed([old' + b[..need]] + Parse(2, b[need..]).frames, Parse(2, b[need..]).rest)
  {
    hide Parse, ToBe;
    TwoBack(n);
    var h := ToBe(n, 2);
    HeldSlices(h, old', b, n);
    ParseStep(h + old' + b);
  }

  lemma HeldSlices(h: bytes, f: bytes, b: bytes, n: nat)
    requires |h| == 2 && |f| <= n
    ensures var c := h + f + b;
      && c == h + (f + b) && c[0] == h[0] && c[1] == h[1]
      && (|b| >= n - |f| ==> c[2..2 + n] == f + b[..n - |f|] && c[2 + n..] == b[n - |f|..])
  {
  }

  /** A record of one length byte, completed by the next byte, is one with nothing read yet. */
  lemma HeaderByte(header: byte, b: bytes)
    requires b != []
    ensures var n := 256 * (header as int) + b[0];
      n < 0x1_0000 && [header] + b == ToBe(n, 2) + [] + b[1..]
  {
    var n := 256 * (header as int) + b[0];
    TwoBack(n);
    assert n / 256 == header && n % 256 == b[0];
  }

  function Packets(fd: int, fs: seq<bytes>): (r: seq<Packet>)
    ensures |r| == |fs|
  {
    seq(|fs|, i requires 0 <= i < |fs| => Packet(fd, fs[i]))
  }

  lemma PacketsCons(fd: int, f: bytes, fs: seq<bytes>)
    ensures Packets(fd, [f] + fs) == [Packet(fd, f)] + Packets(fd, fs)
  {
  }

  class Queue {
    var hash: array<seq<Uncomplete>>
    var queue: seq<Packet>

    ghost predicate Valid()
      reads this, hash
    {
      && hash.Length == HASHSIZE
      && (forall h :: 0 <= h < HASHSIZE ==> Single(hash[h]) && forall u :: u in hash[h] ==> Sound(u) && HashFd(u.fd) == h)
    }

    /** The bytes of descriptor `fd` that wait for more. */
    ghost function Rest(fd: int): bytes
      requires Valid()
      reads this, hash
    {
      Find(hash[HashFd(fd)], fd)
    }

    constructor ()
      ensures Valid() && fresh(hash) && queue == [] && forall fd :: Rest(fd) == []
    {
      hash := new seq<Uncomplete>[HASHSIZE](_ => []);
      queue := [];
    }

    /** `find_uncomplete` takes the record out of its chain. */
    method FindUncomplete(fd: int) returns (found: bool, u: Uncomplete)
      requires Valid()
      modifies hash
      ensures Valid() && Rest(fd) == [] && forall g :: g != fd ==> Rest(g) == old(Rest(g))
      ensures found ==> u.fd == fd && Sound(u) && old(Rest(fd)) == Held(u)
      ensures !found ==> old(Rest(fd)) == []
    {
      hide Sound, Held;
      u := Uncomplete(fd, 0, 0, 0, []);
      var h := HashFd(fd);
      var chain := hash[h];
      FindWithout(chain, fd);
      var k := 0;
      while k < |chain|
        invariant 0 <= k <= |chain| && forall i :: 0 <= i < k ==> chain[i].fd != fd
      {
        if chain[k].fd == fd {
          FindAt(chain, k);
          u := chain[k];
          hash[h] := chain[..k] + chain[k + 1..];
          return true, u;
        }
        k := k + 1;
      }
      FindNone(chain, fd);
      found := false;
    }

    /** `save_uncomplete` */
    method SaveUncomplete(u: Uncomplete)
      requires Valid() && Sound(u) && Rest(u.fd) == []
      modifies hash
      ensures Valid() && Rest(u.fd) == Held(u) && forall g :: g != u.fd ==> Rest(g) == old(Rest(g))
    {
      var h := HashFd(u.fd);
      NoRecord(hash[h], u.fd);
      hash[h] := [u] + hash[h];
      assert hash[h][1..] == old(hash[h]);
    }

    lemma NoRecord(chain: seq<Uncomplete>, fd: int)
      requires Find(chain, fd) == [] && forall u :: u in chain ==> Sound(u)
      ensures forall u :: u in chain ==> u.fd != fd
    {
      if chain != [] {
        HeldPartial(chain[0]);
        NoRecord(chain[1..], fd);
      }
    }

    /** Keep the start of a packet: its length byte, or its length and some data. */
    method Keep(fd: int, buffer: bytes)
      requires Valid() && Rest(fd) == [] && buffer != [] && (|buffer| == 1 || |buffer| - 2 < ReadSize(buffer))
      modifies hash
      ensures Valid() && Rest(fd) == buffer && forall g :: g != fd ==> Rest(g) == old(Rest(g))
    {
      if |buffer| == 1 {
        SaveUncomplete(Uncomplete(fd, -1, buffer[0], 0, []));
      } else {
        var n := ReadSize(buffer);
        TwoBack(n);
        assert ToBe(n, 2) + buffer[2..] == buffer;
        SaveUncomplete(Uncomplete(fd, |buffer| - 2, 0, n, buffer[2..]));
      }
    }

    /** `push_more` */
    method PushMore(fd: int, buffer: bytes)
      requires Valid() && Rest(fd) == [] && buffer != []
      modifies this`queue, hash
      ensures Valid() && Rest(fd) == Parse(2, buffer).rest && forall g :: g != fd ==> Rest(g) == old(Rest(g))
      ensures queue == old(queue) + Packets(fd, Parse(2, buffer).frames)
      decreases |buffer|
    {
      if |buffer| == 1 {
        Keep(fd, buffer);
        return;
      }
      var n := ReadSize(buffer);
      ParseStep(buffer);
      if |buffer| - 2 < n {
        Keep(fd, buffer);
        return;
      }
      hide Parse, Valid;
      var frame, more := buffer[2..2 + n], buffer[2 + n..];
      PacketsCons(fd, frame, Parse(2, more).frames);
      queue := queue + [Packet(fd, frame)];
      if |more| > 0 {
        PushMore(fd, more);
      } else {
        TooShort([]);
      }
    }

    /** `filter_data_`: a nonempty chunk for `fd`. */
    method FilterData(fd: int, chunk: bytes) returns (r: Answer)
      requires Valid() && chunk != []
      modifies this`queue, hash
      ensures Valid() && Rest(fd) == Parse(2, old(Rest(fd)) + chunk).rest
      ensures forall g :: g != fd ==> Rest(g) == old(Rest(g))
      ensures var fs := Parse(2, old(Rest(fd)) + chunk).frames;
        match r
        case Nothing => fs == [] && queue == old(queue)
        case Data(d) => fs == [d] && queue == old(queue)
        case More => queue == old(queue) + Packets(fd, fs)
    {
      hide Parse, Valid, Sound, Held;
      var found, u := FindUncomplete(fd);
      if found {
        r := Resume(u, chunk);
      } else {
        assert [] + chunk == chunk;
        r := Start(fd, chunk);
      }
    }

    /** What a call must leave behind when the bytes of `fd` so far are `stream`. */
    twostate predicate Fed(fd: int, stream: bytes, r: Answer)
      requires old(Valid()) && Valid()
      reads this, hash
    {
      var p := Parse(2, stream);
      && Rest(fd) == p.rest && (forall g :: g != fd ==> Rest(g) == old(Rest(g)))
      && match r
         case Nothing => p.frames == [] && queue == old(queue)
         case Data(d) => p.frames == [d] && queue == old(queue)
         case More => queue == old(queue) + Packets(fd, p.frames)
    }

    /** The chunk continues the record `u`, which is out of its chain. */
    method Resume(u0: Uncomplete, chunk: bytes) returns (r: Answer)
      requires Valid() && Sound(u0) && Rest(u0.fd) == [] && chunk != []
      modifies this`queue, hash
      ensures Valid() && Fed(u0.fd, Held(u0) + chunk, r)
    {
      hide Parse, Valid, ToBe;
      var u, buffer := u0, chunk;
      if u.read < 0 {
        HeaderByte(u.header, buffer);
        u := u.(size := 256 * (u.header as int) + buffer[0], read := 0, buffer := []);
        buffer := buffer[1..];
      }
      ParseHeld(u.size, u.buffer, buffer);
      var need := u.size - u.read;
      if |buffer| < need {
        u := u.(buffer := u.buffer + buffer, read := u.read + |buffer|);
        SaveUncomplete(u);
        return Nothing;
      }
      r := Finish(u.fd, u.buffer + buffer[..need], buffer[need..]);
    }

    /** The chunk starts a packet. */
    method Start(fd: int, buffer: bytes) returns (r: Answer)
      requires Valid() && Rest(fd) == [] && buffer != []
      modifies this`queue, hash
      ensures Valid() && Fed(fd, buffer, r)
    {
      hide Parse, Valid;
      if |buffer| == 1 {
        TooShort(buffer);
        Keep(fd, buffer);
        return Nothing;
      }
      var n := ReadSize(buffer);
      ParseStep(buffer);
      if |buffer| - 2 < n {
        Keep(fd, buffer);
        return Nothing;
      }
      r := Finish(fd, buffer[2..2 + n], buffer[2 + n..]);
    }

    /** A packet is complete: the only one of the chunk, or the first of several. */
    method Finish(fd: int, frame: bytes, more: bytes) returns (r: Answer)
      requires Valid() && Rest(fd) == []
      modifies this`queue, hash
      ensures Valid() && Rest(fd) == Parse(2, more).rest && forall g :: g != fd ==> Rest(g) == old(Rest(g))
      ensures if more == [] then r == Data(frame) && queue == old(queue) && Parse(2, more).frames == []
              else r == More && queue == old(queue) + Packets(fd, [frame] + Parse(2, more).frames)
    {
      hide Parse;
      if more == [] {
        TooShort([]);
        return Data(frame);
      }
      PacketsCons(fd, frame, Parse(2, more).frames);
      queue := queue + [Packet(fd, frame)];
      PushMore(fd, more);
      r := More;
    }
  }
}
