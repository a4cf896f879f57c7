/** Bytes, and machine words stored in them with the low byte first. */
module Words {
  type byte = x: int | 0 <= x < 256
  type bytes = seq<byte>

  datatype Option<T> = None | Some(value: T)

  function Power(k: nat): nat { if k == 0 then 1 else 256 * Power(k - 1) }

  function Le(n: nat, k: nat): (r: bytes)
    ensures |r| == k
  {
    if k == 0 then [] else [n % 256] + Le(n / 256, k - 1)
  }

  function FromLe(b: bytes): nat { if b == [] then 0 else b[0] + 256 * FromLe(b[1..]) }

  lemma {:induction false} LeBack(n: nat, k: nat)
    requires n < Power(k)
    ensures FromLe(Le(n, k)) == n
  {
    if k > 0 {
      assert n / 256 < Power(k - 1);
      LeBack(n / 256, k - 1);
    }
  }

  lemma Powers()
    ensures Power(1) == 0x100 && Power(2) == 0x1_0000 && Power(4) == 0x1_0000_0000 && Power(8) == 0x1_0000_0000_0000_0000
  {
    assert Power(2) == 256 * Power(1);
    assert Power(3) == 256 * Power(2);
    assert Power(4) == 256 * Power(3);
    assert Power(5) == 256 * Power(4);
    assert Power(6) == 256 * Power(5);
    assert Power(7) == 256 * Power(6);
  }

  /** Two's complement of a value in `k` bytes. */
  function Unsigned(v: int, k: nat): nat
    requires v + Power(k) >= 0
  {
    if v < 0 then v + Power(k) else v
  }

  function Signed(n: nat, k: nat): int { if 2 * n < Power(k) then n else n - Power(k) }

  function DecWord(b: bytes, k: nat): (r: Option<(nat, bytes)>)
    ensures r.Some? ==> |r.value.1| + k == |b|
  {
    if |b| < k then None else Some((FromLe(b[..k]), b[k..]))
  }

  lemma WordBack(n: nat, k: nat, rest: bytes)
    requires n < Power(k)
    ensures DecWord(Le(n, k) + rest, k) == Some((n, rest))
  {
    LeBack(n, k);
    assert (Le(n, k) + rest)[..k] == Le(n, k) && (Le(n, k) + rest)[k..] == rest;
  }

  lemma Assoc(a: bytes, b: bytes, c: bytes)
    ensures a + b + c == a + (b + c)
  {
  }
}
