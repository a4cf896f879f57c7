/** Words of 4 and 8 bytes, and signed ones in two's complement, with each byte's weight written out. */
module LittleEndian {
  import opened Words

  function ByteValue(b: byte): nat { b }

  function Unsigned4(p: bytes): nat
    requires |p| == 4
  {
    ByteValue(p[0]) + 0x100 * ByteValue(p[1]) + 0x1_0000 * ByteValue(p[2]) + 0x100_0000 * ByteValue(p[3])
  }

  function Unsigned8(p: bytes): nat
    requires |p| == 8
  {
    Unsigned4(p[..4]) + 0x1_0000_0000 * Unsigned4(p[4..])
  }

  predicate IsInt32(p: bytes, i: int) {
    |p| == 4 && i == if p[3] < 128 then Unsigned4(p) else Unsigned4(p) - 0x1_0000_0000
  }

  predicate IsInt64(p: bytes, i: int) {
    |p| == 8 && i == if p[7] < 128 then Unsigned8(p) else Unsigned8(p) - 0x1_0000_0000_0000_0000
  }

  lemma FromLe4(p: bytes)
    requires |p| == 4
    ensures FromLe(p) == Unsigned4(p) < 0x1_0000_0000
  {
    assert p == [p[0], p[1], p[2], p[3]];
    assert FromLe([p[1], p[2], p[3]]) == p[1] + 256 * FromLe([p[2], p[3]]);
    assert FromLe([p[2], p[3]]) == p[2] + 256 * FromLe([p[3]]);
    assert FromLe([p[3]]) == p[3] + 256 * FromLe([]);
    assert p[1..] == [p[1], p[2], p[3]];
  }

  lemma {:induction false} FromLeJoined(a: bytes, b: bytes)
    ensures FromLe(a + b) == FromLe(a) + Power(|a|) * FromLe(b)
  {
    if a == [] {
      assert a + b == b;
    } else {
      FromLeJoined(a[1..], b);
      assert (a + b)[1..] == a[1..] + b;
      assert Power(|a|) == 256 * Power(|a| - 1);
      Scaled(Power(|a| - 1), FromLe(b));
    }
  }

  lemma Scaled(x: nat, y: nat)
    ensures 256 * (x * y) == (256 * x) * y
  {
  }

  lemma FromLe8(p: bytes)
    requires |p| == 8
    ensures FromLe(p) == Unsigned8(p) < 0x1_0000_0000_0000_0000
  {
    Powers();
    FromLe4(p[..4]);
    FromLe4(p[4..]);
    FromLeJoined(p[..4], p[4..]);
    assert p[..4] + p[4..] == p;
  }
}
