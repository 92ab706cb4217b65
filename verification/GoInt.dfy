/** Go's fixed-width integers: wrap-around and division. */
module GoInt {

  const MAX_INT32 := 0x7FFF_FFFF

  // The value an int32 holds after arithmetic wrapped around.
  function Wrap32(x: int): int {
    (x + 0x8000_0000) % 0x1_0000_0000 - 0x8000_0000
  }

  // Go's integer division truncates toward zero.
  function Quotient(a: int, b: int): int
    requires b > 0
  {
    if a >= 0 then a / b else -((-a) / b)
  }

  lemma WrapNeverAbove(x: int)
    requires 0 <= x
    ensures Wrap32(x) <= x && Wrap32(x) <= MAX_INT32
    ensures x <= MAX_INT32 ==> Wrap32(x) == x
  {
  }

  // A wrapped number is in range and differs from the number by a multiple of the word.
  lemma Wrap32Meaning(x: int) returns (k: int)
    ensures -0x8000_0000 <= Wrap32(x) < 0x8000_0000 && x == Wrap32(x) + k * 0x1_0000_0000
  {
    k := (x + 0x8000_0000) / 0x1_0000_0000;
  }

  lemma Wrap64Meaning(x: int) returns (k: int)
    ensures -0x8000_0000_0000_0000 <= Wrap64(x) < 0x8000_0000_0000_0000 && x == Wrap64(x) + k * 0x1_0000_0000_0000_0000
  {
    k := (x + 0x8000_0000_0000_0000) / 0x1_0000_0000_0000_0000;
  }

  lemma FarMultiple(d: int, n: int)
    requires n > 0
    ensures d > 0 ==> d * n >= n
    ensures d < 0 ==> d * n <= -n
  {
    if d > 0 {
      assert (d - 1) * n >= 0;
    } else if d < 0 {
      assert (-d - 1) * n >= 0;
    }
  }

  lemma QuotientFits(a: int, b: int)
    requires b > 0
    ensures a >= 0 ==> Quotient(a, b) >= 0 && Quotient(a, b) * b <= a < (Quotient(a, b) + 1) * b
    ensures a < 0 ==> Quotient(a, b) <= 0 && (Quotient(a, b) - 1) * b < a <= Quotient(a, b) * b
  {
    if a >= 0 {
      DivisionFits(a, b);
    } else {
      DivisionFits(-a, b);
      var q := (-a) / b;
      assert Quotient(a, b) * b == -(q * b) && (Quotient(a, b) - 1) * b == -((q + 1) * b);
    }
  }

  lemma DivisionFits(a: nat, b: int)
    requires b > 0
    ensures 0 <= a / b && 0 <= a / b * b <= a < (a / b + 1) * b
  {
    var q := a / b;
    assert a == q * b + a % b;
    assert (q + 1) * b == q * b + b;
  }

  // The value an int64 holds after arithmetic wrapped around.
  function Wrap64(x: int): int {
    (x + 0x8000_0000_0000_0000) % 0x1_0000_0000_0000_0000 - 0x8000_0000_0000_0000
  }

  lemma WrapShift(x: int, k: int)
    ensures Wrap64(x + k * 0x1_0000_0000_0000_0000) == Wrap64(x)
  {
  }

  lemma WrapParts(x: int) returns (k: int)
    ensures Wrap64(x) == x + k * 0x1_0000_0000_0000_0000
  {
    k := -((x + 0x8000_0000_0000_0000) / 0x1_0000_0000_0000_0000);
  }

  lemma WrapSum(x: int, y: int)
    ensures Wrap64(Wrap64(x) + Wrap64(y)) == Wrap64(x + y)
  {
    var k := WrapParts(x);
    var l := WrapParts(y);
    WrapShift(x + y, k + l);
  }

  lemma WrapOnce(x: int, y: int)
    ensures Wrap64(Wrap64(x) + y) == Wrap64(x + y)
  {
    var k := WrapParts(x);
    WrapShift(x + y, k);
  }

  lemma WrapProduct(x: int, c: int)
    ensures Wrap64(Wrap64(x) * c) == Wrap64(x * c)
  {
    var k := WrapParts(x);
    assert Wrap64(x) * c == x * c + (k * c) * 0x1_0000_0000_0000_0000;
    WrapShift(x * c, k * c);
  }

  // Wrapping after every addition is wrapping the sum.
  lemma WrapSum32(x: int, y: int)
    ensures Wrap32(Wrap32(x) + Wrap32(y)) == Wrap32(x + y)
  {
    var k, l := (x + 0x8000_0000) / 0x1_0000_0000, (y + 0x8000_0000) / 0x1_0000_0000;
    assert Wrap32(x) + Wrap32(y) == x + y - (k + l) * 0x1_0000_0000;
  }
}
