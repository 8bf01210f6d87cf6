/** The C# `int` operations the core relies on, written out over unbounded
    integers: the 32-bit range, `1 << n`, and `/` (which truncates toward
    zero, unlike Dafny's Euclidean division). */
module CSharpInt {

  const IntMin: int := -0x8000_0000
  const IntMax: int := 0x7FFF_FFFF

  predicate IsInt32(n: int)
  {
    IntMin <= n <= IntMax
  }

  function Pow2(k: nat): (p: nat)
    ensures p >= 1
  {
    if k == 0 then 1 else 2 * Pow2(k - 1)
  }

  lemma {:induction false} Pow2Monotone(a: nat, b: nat)
    requires a < b
    ensures Pow2(a) < Pow2(b)
    decreases b
  {
    if a < b - 1 {
      Pow2Monotone(a, b - 1);
    }
  }

  lemma Pow2AtMost(a: nat, b: nat)
    requires a <= b
    ensures Pow2(a) <= Pow2(b)
  {
    if a < b {
      Pow2Monotone(a, b);
    }
  }

  lemma {:induction false} Pow2Add(a: nat, b: nat)
    ensures Pow2(a + b) == Pow2(a) * Pow2(b)
    decreases a
  {
    if a > 0 {
      Pow2Add(a - 1, b);
      assert Pow2(a + b) == 2 * Pow2(a - 1 + b);
      assert 2 * (Pow2(a - 1) * Pow2(b)) == (2 * Pow2(a - 1)) * Pow2(b);
    }
  }

  lemma Pow2Of30()
    ensures Pow2(30) == 0x4000_0000
  {
    assert Pow2(5) == 32;
    Pow2Add(5, 5);
    assert Pow2(10) == 1024;
    Pow2Add(10, 10);
    assert Pow2(20) == 0x10_0000;
    Pow2Add(20, 10);
  }

  lemma Pow2AtMost30(k: nat)
    requires k <= 30
    ensures Pow2(k) <= 0x4000_0000
  {
    Pow2Of30();
    if k < 30 {
      Pow2Monotone(k, 30);
    }
  }

  const TwoTo32: int := 0x1_0000_0000

  /** The 32-bit two's-complement value with the same low 32 bits as `x`:
      what an `int` holds after an operation whose exact result does not
      fit. */
  function WrapInt32(x: int): (r: int)
    ensures IsInt32(r)
    ensures (x - r) % TwoTo32 == 0
    ensures IsInt32(x) ==> r == x
  {
    var m := x % TwoTo32;
    if m > IntMax then m - TwoTo32 else m
  }

  /** `x << n` on a C# `int`: the shift count is taken modulo 32 (`n & 31`,
      which is the non-negative remainder) and the bits shifted past bit 31
      are lost. */
  function ShiftLeft(x: int, n: int): (r: int)
    requires IsInt32(x)
    ensures IsInt32(r)
    ensures (r - x * Pow2(n % 32)) % TwoTo32 == 0
  {
    WrapInt32(x * Pow2(n % 32))
  }

  /** `1 << n`: a power of two for counts 0 to 30, and the most negative
      value when the count lands on bit 31. */
  function ShiftLeftOne(n: int): (r: int)
    ensures IsInt32(r)
    ensures 0 <= n < 31 ==> r == Pow2(n)
    ensures r == Pow2(n % 32) || (n % 32 == 31 && r == IntMin)
  {
    ShiftOfOne(n);
    ShiftLeft(1, n)
  }

  lemma ShiftOfOne(n: int)
    ensures var k := n % 32;
      ShiftLeft(1, n) == if k == 31 then IntMin else Pow2(k)
    ensures 0 <= n < 31 ==> ShiftLeft(1, n) == Pow2(n)
  {
    var k := n % 32;
    assert 0 <= n < 31 ==> k == n;
    assert ShiftLeft(1, n) == WrapInt32(Pow2(k));
    WrappedPow2(k);
  }

  /** 2^k kept to 32 bits: itself below bit 31, the most negative value at
      bit 31. */
  lemma WrappedPow2(k: nat)
    requires k < 32
    ensures WrapInt32(Pow2(k)) == if k == 31 then IntMin else Pow2(k)
  {
    if k == 31 {
      Pow2Of30();
      assert Pow2(31) == 0x8000_0000;
      assert WrapInt32(0x8000_0000) == IntMin;
    } else {
      Pow2AtMost30(k);
    }
  }

  function Abs(n: int): nat
  {
    if n < 0 then -n else n
  }

  /** C# integer division: the quotient is truncated toward zero, so the
      remainder takes the sign of the dividend. */
  function TruncDiv(a: int, b: int): (q: int)
    requires b != 0
    ensures Abs(a - q * b) < Abs(b)
    ensures a - q * b == 0 || (a - q * b < 0 <==> a < 0)
  {
    var m := Abs(a) / Abs(b);
    var rem := Abs(a) % Abs(b);
    assert Abs(a) == m * Abs(b) + rem;
    var q := if (a < 0) == (b < 0) then m else -m;
    assert q * b == if a < 0 then -(m * Abs(b)) else m * Abs(b);
    q
  }

  /** For a non-negative dividend and a positive divisor the C# quotient is
      the usual floor: the largest q with q * b <= a. */
  lemma TruncDivOfNatural(a: int, b: int)
    requires a >= 0 && b > 0
    ensures TruncDiv(a, b) * b <= a < (TruncDiv(a, b) + 1) * b
  {
  }
}
