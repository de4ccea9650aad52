/** Java's signed 32-bit `int`: wrap-around, shifts, and the saturating cast of a power of two. */
module JavaInt {
  const TWO32 := 0x1_0000_0000
  const MAX_INT := 0x7FFF_FFFF
  const MIN_INT := -0x8000_0000

  type int32 = x: int | MIN_INT <= x <= MAX_INT

  // The representative of x modulo 2^32 that an int holds.
  function Wrap32(x: int): int32 {
    var u := x % TWO32;
    if u > MAX_INT then u - TWO32 else u
  }

  // The 32 bits of an int read as an unsigned number.
  function Unsigned(x: int32): nat {
    x % TWO32
  }

  function Pow2(k: nat): (p: int)
    ensures p >= 1
  {
    if k == 0 then 1 else 2 * Pow2(k - 1)
  }

  // x << k
  function Shl(x: int32, k: nat): int32
    requires k < 32
  {
    Wrap32(x * Pow2(k))
  }

  // x >> k: the arithmetic shift rounds toward minus infinity.
  function Shr(x: int32, k: nat): int32
    requires k < 32
  {
    var p := Pow2(k);
    DivShrinks(x, p);
    x / p
  }

  // (int) Math.pow(2, k): the cast saturates at MAX_INT.
  function IntPow2(k: nat): int32
    requires k < 32
  {
    if k == 31 then MAX_INT else Pow2Bound(k); Pow2(k)
  }

  lemma DivShrinks(x: int, p: int)
    requires p >= 1
    ensures x >= 0 ==> 0 <= x / p <= x
    ensures x < 0 ==> x <= x / p < 0
  {
    var q := x / p;
    assert x == q * p + x % p;
    if x >= 0 {
      if q < 0 {
        MulMono(q, -1, p);
      } else if q > x {
        MulMono(1, p, q);
      }
    } else {
      if q >= 0 {
        MulMono(0, q, p);
      } else if q < x {
        MulMono(q + 1, x, p);
        MulMono(1, p, -x);
      }
    }
  }

  lemma MulMono(a: int, b: int, c: int)
    requires a <= b && c >= 0
    ensures a * c <= b * c
  {
  }

  lemma {:induction false} Pow2Add(a: nat, b: nat)
    ensures Pow2(a + b) == Pow2(a) * Pow2(b)
  {
    if a > 0 {
      Pow2Add(a - 1, b);
      calc {
        Pow2(a + b);
        2 * Pow2(a - 1 + b);
        2 * (Pow2(a - 1) * Pow2(b));
        Pow2(a) * Pow2(b);
      }
    }
  }

  lemma Pow2Values()
    ensures Pow2(30) == 0x4000_0000 && Pow2(31) == 0x8000_0000 && Pow2(32) == TWO32
  {
    assert Pow2(5) == 32;
    Pow2Add(5, 5);
    Pow2Add(10, 10);
    Pow2Add(20, 10);
  }

  lemma {:induction false} Pow2Mono(a: nat, b: nat)
    requires a <= b
    ensures Pow2(a) <= Pow2(b)
  {
    if a < b {
      Pow2Mono(a, b - 1);
    }
  }

  lemma Pow2Bound(k: nat)
    requires k < 32
    ensures k < 31 ==> Pow2(k) <= 0x4000_0000
    ensures Pow2(31) == 0x8000_0000 && Pow2(32) == TWO32
  {
    Pow2Values();
    if k < 31 {
      Pow2Mono(k, 30);
    }
  }

  // The quotient of x by p is the only q with q*p <= x < (q+1)*p.
  lemma DivUnique(x: int, p: int, q: int)
    requires p >= 1
    requires q * p <= x < q * p + p
    ensures x / p == q
  {
    var d := x / p;
    assert d * p <= x < d * p + p;
    if d < q {
      MulMono(d + 1, q, p);
    } else if d > q {
      MulMono(q + 1, d, p);
    }
  }

  lemma WrapId(x: int)
    requires MIN_INT <= x <= MAX_INT
    ensures Wrap32(x) == x
  {
  }

  // Wrapping after each addition is wrapping once at the end.
  lemma WrapAdd(a: int, b: int)
    ensures Wrap32(Wrap32(a) + Wrap32(b)) == Wrap32(a + b)
    ensures Wrap32(Wrap32(a) + b) == Wrap32(a + b)
  {
    var i, j := Laps(a), Laps(b);
    WrapShift(Wrap32(a) + Wrap32(b), i + j);
    WrapShift(Wrap32(a) + b, i);
  }

  // How many times 2^32 wrapping takes off.
  function Laps(x: int): (k: int)
    ensures x == Wrap32(x) + k * TWO32
  {
    if x % TWO32 > MAX_INT then x / TWO32 + 1 else x / TWO32
  }

  lemma WrapShift(x: int, k: int)
    ensures Wrap32(x + k * TWO32) == Wrap32(x)
  {
    assert (x + k * TWO32) / TWO32 == x / TWO32 + k;
  }
}
