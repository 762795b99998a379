/** 32-bit fixed-point arithmetic (doom/m_fixed.c). */
module Fixed {

  const FRACUNIT := 0x10000
  const MAXINT := 0x7fff_ffff

  predicate IsInt32(x: int) { -0x8000_0000 <= x < 0x8000_0000 }

  /** The value of x as a C int: two's complement wrap-around. */
  function Int32(x: int): (r: int)
    ensures IsInt32(r) && (IsInt32(x) ==> r == x)
  {
    (x + 0x8000_0000) % 0x1_0000_0000 - 0x8000_0000
  }

  /** x >> 16: an arithmetic shift rounds down. */
  function Shr16(x: int): int { x / FRACUNIT }

  function FixedMul(a: int, b: int): int { Int32(a * b / FRACUNIT) }

  lemma MulLe(a: nat, b: int, n: int)
    requires b <= n
    ensures a * b <= a * n
  {
  }

  lemma ProductBound(a: int, b: int)
    requires -0x8000 <= a < 0x8000 && IsInt32(b)
    ensures -0x4000_0000_0000 <= a * b <= 0x4000_0000_0000
  {
    var m: nat := if a < 0 then -a else a;
    MulLe(m, b, 0x8000_0000);
    MulLe(m, -0x8000_0000, b);
    assert a < 0 ==> a * b == -(m * b);
  }

  /** Products by a map-sized slope never wrap. */
  lemma FixedMulExact(a: int, b: int)
    requires -0x8000 <= a < 0x8000 && IsInt32(b)
    ensures FixedMul(a, b) == a * b / FRACUNIT && FixedMul(b, a) == a * b / FRACUNIT
  {
    ProductBound(a, b);
    var p := a * b;
    assert b * a == p;
    assert IsInt32(p / FRACUNIT);
  }

  /** Multiplying by a fixed factor and rounding down keeps (or reverses) order. */
  lemma ShiftedMulMono(a: int, x: int, y: int)
    requires x <= y
    ensures a >= 0 ==> a * x / FRACUNIT <= a * y / FRACUNIT
    ensures a <= 0 ==> a * y / FRACUNIT <= a * x / FRACUNIT
  {
    if a >= 0 {
      assert a * x <= a * y;
    } else {
      assert a * y <= a * x;
    }
  }
}
