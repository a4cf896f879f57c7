/**
 * Streams of frames: a big-endian length of `w` bytes, then that many bytes. What a reader must emit
 * is a function of the bytes received so far, however they were cut into chunks.
 */
module Framing {
  import opened Words

  datatype Parsed = Parsed(frames: seq<bytes>, rest: bytes)

  function Be(b: bytes): nat { if b == [] then 0 else 256 * Be(b[..|b| - 1]) + b[|b| - 1] }

  /** Length in the header at the start of `b`. */
  function Size(w: nat, b: bytes): nat
    requires w <= |b|
  {
    Be(b[..w])
  }

  predicate Whole(w: nat, b: bytes) { |b| >= w && |b| >= w + Size(w, b) }

  function Parse(w: nat, b: bytes): (r: Parsed)
    requires w > 0
    ensures |r.rest| <= |b| && !Whole(w, r.rest)
    decreases |b|
  {
    if !Whole(w, b) then Parsed([], b)
    else
      var n := Size(w, b);
      var r := Parse(w, b[w + n..]);
      Parsed([b[w..w + n]] + r.frames, r.rest)
  }

  lemma SizeStays(w: nat, a: bytes, b: bytes)
    requires w <= |a|
    ensures Size(w, a + b) == Size(w, a)
  {
    assert (a + b)[..w] == a[..w];
  }

  lemma Slices(a: bytes, b: bytes, i: nat, j: nat)
    requires i <= j <= |a|
    ensures (a + b)[j..] == a[j..] + b && (a + b)[i..j] == a[i..j]
  {
  }

  lemma Regroup(a: seq<bytes>, b: seq<bytes>, c: seq<bytes>)
    ensures a + (b + c) == a + b + c
  {
  }

  /** Parsing may stop after any part of the stream and go on with what is left. */
  lemma {:induction false} ParseAppend(w: nat, a: bytes, b: bytes)
    requires w > 0
    ensures var p := Parse(w, a); var q := Parse(w, p.rest + b);
      Parse(w, a + b) == Parsed(p.frames + q.frames, q.rest)
    decreases |a|
  {
    hide Size, Be;
    var p := Parse(w, a);
    if Whole(w, a) {
      SizeStays(w, a, b);
      var n := Size(w, a);
      ParseAppend(w, a[w + n..], b);
      Slices(a, b, w, w + n);
      Regroup([a[w..w + n]], Parse(w, a[w + n..]).frames, Parse(w, p.rest + b).frames);
    } else {
      var q := Parse(w, a + b);
      assert [] + q.frames == q.frames;
    }
  }

  function ToBe(n: nat, w: nat): (r: bytes)
    ensures |r| == w
  {
    if w == 0 then [] else ToBe(n / 256, w - 1) + [n % 256]
  }

  lemma {:induction false} BeBack(n: nat, w: nat)
    requires n < Power(w)
    ensures Be(ToBe(n, w)) == n
  {
    if w > 0 {
      assert n / 256 < Power(w - 1);
      BeBack(n / 256, w - 1);
      assert ToBe(n, w)[..w - 1] == ToBe(n / 256, w - 1);
    }
  }

  /** Network byte order: the first byte weighs most. */
  lemma NetworkOrder(a: byte, b: byte, c: byte, d: byte)
    ensures Be([a, b]) == a as int * 0x100 + b
    ensures Be([b, c, d]) == b as int * 0x1_0000 + c as int * 0x100 + d
    ensures Be([a, b, c, d]) == a as int * 0x100_0000 + b as int * 0x1_0000 + c as int * 0x100 + d
    ensures ToBe(a as int * 0x100 + b, 2) == [a, b]
    ensures ToBe(a as int * 0x100_0000 + b as int * 0x1_0000 + c as int * 0x100 + d, 4) == [a, b, c, d]
  {
    assert Be([a]) == a && Be([b]) == b;
    assert [a] + [b] == [a, b] && [a, b] + [c] == [a, b, c] && [a, b, c] + [d] == [a, b, c, d];
    assert [b] + [c] == [b, c] && [b, c] + [d] == [b, c, d];
    Longer([a], b);
    Longer([b], c);
    Longer([b, c], d);
    Longer([a, b], c);
    Longer([a, b, c], d);
    BytesOf([a, b]);
    BytesOf([a, b, c, d]);
  }

  lemma Longer(s: bytes, b: byte)
    ensures Be(s + [b]) == 256 * Be(s) + b
  {
    assert (s + [b])[..|s|] == s;
  }

  lemma {:induction false} BytesOf(s: bytes)
    ensures ToBe(Be(s), |s|) == s
  {
    if s != [] {
      BytesOf(s[..|s| - 1]);
      assert Be(s) / 256 == Be(s[..|s| - 1]) && Be(s) % 256 == s[|s| - 1];
      assert s[..|s| - 1] + [s[|s| - 1]] == s;
    }
  }

  function Stream(w: nat, fs: seq<bytes>): bytes {
    if fs == [] then [] else ToBe(|fs[0]|, w) + fs[0] + Stream(w, fs[1..])
  }

  predicate Fit(w: nat, fs: seq<bytes>) { forall i :: 0 <= i < |fs| ==> |fs[i]| < Power(w) }

  lemma {:induction false} ParseStream(w: nat, fs: seq<bytes>)
    requires w > 0 && Fit(w, fs)
    ensures Parse(w, Stream(w, fs)) == Parsed(fs, [])
  {
    if fs == [] {
      assert !Whole(w, []);
    } else {
      ParseStream(w, fs[1..]);
      var h, f, t := ToBe(|fs[0]|, w), fs[0], Stream(w, fs[1..]);
      var b := h + f + t;
      BeBack(|f|, w);
      assert b[..w] == h && b[w..w + |f|] == f && b[w + |f|..] == t;
      assert [f] + fs[1..] == fs;
    }
  }

  function Join(chunks: seq<bytes>): bytes { if chunks == [] then [] else chunks[0] + Join(chunks[1..]) }

  lemma {:induction false} JoinPush(a: seq<bytes>, b: bytes)
    ensures Join(a + [b]) == Join(a) + b
  {
    if a == [] {
      assert a + [b] == [b] && Join([b]) == b + Join([]);
    } else {
      assert (a + [b])[1..] == a[1..] + [b];
      JoinPush(a[1..], b);
    }
  }

  /** Emissions of a reader that keeps the unparsed rest between chunks. */
  function Emits(w: nat, rest: bytes, chunks: seq<bytes>): seq<bytes>
    requires w > 0
    decreases |chunks|
  {
    if chunks == [] then [] else
    var p := Parse(w, rest + chunks[0]);
    p.frames + Emits(w, p.rest, chunks[1..])
  }

  lemma {:induction false} EmitsParse(w: nat, rest: bytes, chunks: seq<bytes>)
    requires w > 0 && !Whole(w, rest)
    ensures Emits(w, rest, chunks) == Parse(w, rest + Join(chunks)).frames
    decreases |chunks|
  {
    if chunks == [] {
      assert rest + Join(chunks) == rest;
    } else {
      var p := Parse(w, rest + chunks[0]);
      EmitsParse(w, p.rest, chunks[1..]);
      ParseAppend(w, rest + chunks[0], Join(chunks[1..]));
      assert rest + Join(chunks) == (rest + chunks[0]) + Join(chunks[1..]);
    }
  }

  /** Whatever the cut, the frames of a well-formed stream are emitted in order, each once. */
  lemma AnyCut(w: nat, fs: seq<bytes>, chunks: seq<bytes>)
    requires w > 0 && Fit(w, fs) && Join(chunks) == Stream(w, fs)
    ensures Emits(w, [], chunks) == fs
  {
    assert !Whole(w, []);
    EmitsParse(w, [], chunks);
    assert [] + Join(chunks) == Join(chunks);
    ParseStream(w, fs);
  }
}
