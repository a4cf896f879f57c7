/**
 * Modular powers over 64-bit words and the Diffie-Hellman exchange built on them. Every machine
 * operation that could wrap is written with `Wrap`.
 */
module DhExchange {
  const WORD: nat := 0x1_0000_0000_0000_0000
  const P: nat := 0xffff_ffff_ffff_ffc5
  const G: nat := 5

  type uint64 = x: int | 0 <= x < WORD

  function Wrap(x: int): uint64 { x % WORD }

  // ---- arithmetic modulo P

  lemma Shift(a: int, k: int, m: int)
    requires m > 0
    ensures (a + m * k) % m == a % m
  {
    Unique(a + m * k, m, a / m + k, a % m);
  }

  lemma Unique(n: int, m: int, q: int, r: int)
    requires m > 0 && 0 <= r < m && n == m * q + r
    ensures n % m == r
  {
    var q', r' := n / m, n % m;
    assert m * (q - q') == r' - r by { assert m * q - m * q' == m * (q - q'); }
    assert m * (q' - q) == -(m * (q - q'));
    if q - q' >= 1 { Scale(m, q - q'); } else if q' - q >= 1 { Scale(m, q' - q); }
  }

  lemma Scale(m: int, k: int)
    requires m > 0 && k >= 1
    ensures m * k >= m
  {
  }

  lemma MulMod(a: int, b: int, m: int)
    requires m > 0
    ensures (a * b) % m == ((a % m) * b) % m
  {
    var q, r := a / m, a % m;
    assert a == m * q + r;
    assert a * b == r * b + m * (q * b) by {
      assert (m * q) * b == m * (q * b);
      assert (m * q + r) * b == (m * q) * b + r * b;
    }
    Shift(r * b, q * b, m);
  }

  /** `mul_mod_p`: the product modulo P for every `a <= P`, without overflow. */
  method MulModP(a0: uint64, b0: uint64) returns (m: uint64)
    requires a0 <= P
    ensures m == a0 * b0 % P
  {
    hide Wrap;
    var a: uint64, b: uint64 := a0, b0;
    m := 0;
    while b != 0
      invariant a <= P && m < P
      invariant (m + a * b) % P == a0 * b0 % P
    {
      ghost var a', m' := a, m;
      WrapFits(a, m);
      if b % 2 == 1 {
        var t := Wrap(P - a);
        if m >= t {
          m := Wrap(m - t);
        } else {
          m := Wrap(m + a);
        }
      }
      if a >= Wrap(P - a) {
        a := Wrap(Wrap(a * 2) - P);
      } else {
        a := Wrap(a * 2);
      }
      MulStep(a', b, m', a, m);
      b := b / 2;
    }
    assert a * 0 == 0;
  }

  /** None of the operations of the loop goes wrong by wrapping. */
  lemma WrapFits(a: uint64, m: uint64)
    requires a <= P && m < P
    ensures Wrap(P - a) == P - a
    ensures m >= P - a ==> Wrap(m - (P - a)) == m + a - P
    ensures m < P - a ==> Wrap(m + a) == m + a
    ensures a >= P - a ==> Wrap(Wrap(a * 2) - P) == 2 * a - P
    ensures a < P - a ==> Wrap(a * 2) == 2 * a
  {
  }

  lemma MulStep(a: uint64, b: uint64, m: uint64, a': uint64, m': uint64)
    requires b > 0 && (a' == 2 * a || a' == 2 * a - P)
    requires if b % 2 == 1 then m' == m + a || m' == m + a - P else m' == m
    ensures (m' + a' * (b / 2)) % P == (m + a * b) % P
  {
    var h, e := b / 2, b % 2;
    var j, i := (if a' == 2 * a then 0 else 1), if m' == m + e * a then 0 else 1;
    assert e * a == (if e == 1 then a else 0) && a * e == e * a;
    Halve(a, h, e);
    Double(a, j, h);
    Distribute(P, i, j * h);
    assert a' == 2 * a - P * j && m' == m + e * a - P * i;
    Shift(m' + a' * h, i + j * h, P);
  }

  lemma Halve(a: int, h: int, e: int)
    ensures a * (2 * h + e) == 2 * (a * h) + a * e
  {
    Distribute(a, 2 * h, e);
  }

  lemma Double(a: int, j: int, h: int)
    ensures (2 * a - P * j) * h == 2 * (a * h) - P * (j * h)
  {
  }

  lemma Distribute(p: int, i: int, k: int)
    ensures p * (i + k) == p * i + p * k
  {
  }

  function Pow(a: nat, b: nat): nat
    decreases b
  {
    if b == 0 then 1 else a * Pow(a, b - 1)
  }

  lemma {:induction false} PowAdd(a: nat, b: nat, c: nat)
    ensures Pow(a, b + c) == Pow(a, b) * Pow(a, c)
  {
    if b > 0 {
      PowAdd(a, b - 1, c);
      assert a * (Pow(a, b - 1) * Pow(a, c)) == (a * Pow(a, b - 1)) * Pow(a, c);
    }
  }

  lemma {:induction false} PowPow(a: nat, b: nat, c: nat)
    ensures Pow(Pow(a, b), c) == Pow(a, b * c)
  {
    if c > 0 {
      PowPow(a, b, c - 1);
      PowAdd(a, b, b * (c - 1));
      assert b + b * (c - 1) == b * c;
    } else {
      assert b * 0 == 0;
    }
  }

  lemma {:induction false} PowMod(a: nat, b: nat)
    ensures Pow(a % P, b) % P == Pow(a, b) % P
  {
    if b > 0 {
      PowMod(a, b - 1);
      var x, y := Pow(a % P, b - 1), Pow(a, b - 1);
      MulMod(a, y, P);
      MulMod(y, a % P, P);
      MulMod(x, a % P, P);
      assert (a % P) * x == x * (a % P) && (a % P) * y == y * (a % P);
    }
  }

  /** `pow_mod_p`; for `b == 1` the answer is `a` itself, which may be P. */
  method PowModP(a: uint64, b: uint64) returns (r: uint64)
    requires a <= P && b >= 1
    ensures r <= P && r % P == Pow(a, b) % P
    ensures b > 1 || a < P ==> r == Pow(a, b) % P
    decreases b
  {
    hide Pow;
    PowOne(a);
    if b == 1 {
      return a;
    }
    var t := PowModP(a, b / 2);
    Square(t, a, b / 2);
    t := MulModP(t, t);
    r := t;
    if b % 2 == 1 {
      Odd(t, a, b);
      r := MulModP(t, a);
    }
  }

  lemma PowOne(a: nat)
    ensures Pow(a, 1) == a
  {
    assert Pow(a, 1) == a * Pow(a, 0);
  }

  lemma Odd(t: nat, a: nat, b: nat)
    requires b % 2 == 1 && t == Pow(a, 2 * (b / 2)) % P
    ensures t * a % P == Pow(a, b) % P
  {
    var q := Pow(a, b - 1);
    assert 2 * (b / 2) == b - 1;
    MulMod(q, a, P);
    assert Pow(a, b) == a * q == q * a;
  }

  lemma Square(t: nat, a: nat, h: nat)
    requires t % P == Pow(a, h) % P
    ensures t * t % P == Pow(a, 2 * h) % P
  {
    var q := Pow(a, h);
    MulMod(t, t, P);
    MulMod(t, q % P, P);
    MulMod(q, q, P);
    assert (t % P) * t == t * (q % P) && (q % P) * q == q * (q % P);
    MulMod(q, q % P, P);
    PowAdd(a, h, h);
  }

  /** `powmodp` */
  method PowerModP(a: uint64, b: uint64) returns (r: uint64)
    requires b >= 1
    ensures r <= P && r % P == Pow(a, b) % P
    ensures b > 1 || a != P ==> r == Pow(a, b) % P
  {
    var base := a;
    if a > P {
      base := a % P;
    }
    PowMod(a, b);
    if base != P { assert base % P == a % P; }
    r := PowModP(base, b);
  }

  datatype Result = Ok(key: uint64) | Zero

  /** `dhexchange` */
  method Exchange(x: uint64) returns (r: Result)
    ensures r == if x == 0 then Zero else Ok(Pow(5, x) % 0xffff_ffff_ffff_ffc5)
  {
    if x == 0 {
      return Zero;
    }
    var key := PowerModP(G, x);
    r := Ok(key);
  }

  /** `dhsecret` */
  method Secret(x: uint64, y: uint64) returns (r: Result)
    ensures x == 0 || y == 0 ==> r == Zero
    ensures x != 0 && y != 0 ==> r.Ok? && r.key % 0xffff_ffff_ffff_ffc5 == Pow(x, y) % 0xffff_ffff_ffff_ffc5
    ensures x != 0 && y != 0 && x != P ==> r == Ok(Pow(x, y) % P)
  {
    if x == 0 || y == 0 {
      return Zero;
    }
    var key := PowerModP(x, y);
    r := Ok(key);
  }

  /** 5 has an inverse modulo P, so no exchanged key is 0. */
  lemma {:induction false} KeyNotZero(x: nat)
    ensures Pow(G, x) % P != 0
  {
    var k := 0x6666_6666_6666_664f;
    assert G * k == 2 * P + 1;
    InversePower(k, x);
    if Pow(G, x) % P == 0 {
      MulMod(Pow(G, x), Pow(k, x), P);
    }
  }

  lemma {:induction false} InversePower(k: nat, x: nat)
    requires G * k % P == 1
    ensures Pow(G, x) * Pow(k, x) % P == 1
  {
    if x > 0 {
      InversePower(k, x - 1);
      var g, h := Pow(G, x - 1), Pow(k, x - 1);
      assert (G * g) * (k * h) == (G * k) * (g * h);
      MulMod(G * k, g * h, P);
    }
  }

  /** Both sides of an exchange with secrets `x` and `y` derive the same key. */
  method Agree(x: uint64, y: uint64) returns (left: uint64, right: uint64)
    requires x != 0 && y != 0
    ensures left == right == Pow(5, x * y) % 0xffff_ffff_ffff_ffc5
  {
    var a := Exchange(x);
    var b := Exchange(y);
    KeyNotZero(x);
    KeyNotZero(y);
    var l := Secret(b.key, x);
    var r := Secret(a.key, y);
    PowMod(Pow(G, y), x);
    PowMod(Pow(G, x), y);
    PowPow(G, y, x);
    PowPow(G, x, y);
    assert x * y == y * x;
    left, right := l.key, r.key;
  }
}
