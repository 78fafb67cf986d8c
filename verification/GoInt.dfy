/** Go's integer operators, which truncate toward zero where Dafny's are Euclidean. */
module GoInt {
  function Abs(a: int): nat {
    if a < 0 then -a else a
  }

  /** Go's `a / b`: the quotient rounded toward zero. */
  function Div(a: int, b: int): int
    requires b != 0
  {
    if (a < 0) == (b < 0) then Abs(a) / Abs(b) else -(Abs(a) / Abs(b))
  }

  /** Go's `a % b`: the remainder takes the sign of the dividend. */
  function Mod(a: int, b: int): int
    requires b != 0
  {
    a - b * Div(a, b)
  }

  function Max(a: int, b: int): (m: int)
    ensures a <= m && b <= m && (m == a || m == b)
  {
    if a < b then b else a
  }

  function Min(a: int, b: int): (m: int)
    ensures m <= a && m <= b && (m == a || m == b)
  {
    if a < b then a else b
  }

  lemma OnlyZeroMultiple(k: int, b: int)
    requires b > 0 && -b < k * b < b
    ensures k == 0
  {
  }

  lemma MulBetween(r: int, n: int, c: int)
    requires 0 <= r < n && c >= 1
    ensures 0 <= c * r < c * n
  {
  }

  lemma EuclidUnique(a: int, b: int, q: int, r: int)
    requires b > 0 && a == q * b + r && 0 <= r < b
    ensures q == a / b && r == a % b
  {
    var q', r' := a / b, a % b;
    assert a == b * q' + r';
    assert (q - q') * b == q * b - b * q';
    OnlyZeroMultiple(q - q', b);
  }

  lemma DivBelow(a: int, b: int)
    requires b > 0
    ensures a / b == (a - 1) / b + if a % b == 0 then 1 else 0
  {
    var q, r := a / b, a % b;
    assert a == q * b + r;
    if r == 0 {
      assert a - 1 == (q - 1) * b + (b - 1);
      EuclidUnique(a - 1, b, q - 1, b - 1);
    } else {
      EuclidUnique(a - 1, b, q, r - 1);
    }
  }

  /** Whichever way the remainder is signed, it is zero for exactly the multiples. */
  lemma ModZero(a: int, b: int)
    requires b > 0
    ensures Mod(a, b) == 0 <==> a % b == 0
  {
    var q := Abs(a) / b;
    assert Abs(a) == q * b + Abs(a) % b;
    if a < 0 {
      assert b * -q == -(q * b);
      if Mod(a, b) == 0 {
        assert a == -q * b + 0;
        EuclidUnique(a, b, -q, 0);
      } else {
        var s := Abs(a) % b;
        assert a == (-q - 1) * b + (b - s);
        EuclidUnique(a, b, -q - 1, b - s);
      }
    }
  }

  lemma DivNonNegative(a: int, b: int)
    requires a >= 0 && b > 0
    ensures Div(a, b) == a / b
  {
  }

  /** The engine's floorDiv: truncating division corrected to round down. */
  function FloorDiv(a: int, b: int): int
    requires b != 0
  {
    var q := Div(a, b);
    if Mod(a, b) != 0 && (a < 0) != (b < 0) then q - 1 else q
  }

  /** The quotient's product with b, worked out from the magnitudes. */
  lemma Recompose(x: nat, y: nat)
    requires y > 0
    ensures x == y * (x / y) + x % y && 0 <= x % y < y
  {
  }

  lemma NegatedProduct(b: int, t: int)
    ensures b * -t == -(b * t) && -b * t == -(b * t)
  {
  }

  /** The remainder has the dividend's sign and less than the divisor's size; with the quotient's product it gives the dividend. */
  lemma DivProduct(a: int, b: int)
    requires b != 0
    ensures Mod(a, b) == if a < 0 then -(Abs(a) % Abs(b)) else Abs(a) % Abs(b)
    ensures Mod(a, b) == a - Div(a, b) * b && Abs(Mod(a, b)) < Abs(b)
  {
    var t, r, p := Abs(a) / Abs(b), Abs(a) % Abs(b), b * (Abs(a) / Abs(b));
    Recompose(Abs(a), Abs(b));
    NegatedProduct(b, t);
    assert Abs(a) == (if b < 0 then -p else p) + r;
    assert b * Div(a, b) == if (a < 0) == (b < 0) then p else -p;
  }

  lemma FloorDivBounds(a: int, b: int)
    requires b != 0
    ensures b > 0 ==> FloorDiv(a, b) * b <= a < FloorDiv(a, b) * b + b
    ensures b < 0 ==> FloorDiv(a, b) * b >= a > FloorDiv(a, b) * b + b
  {
    DivProduct(a, b);
    hide Div, Mod;
    var q := Div(a, b);
    assert (q - 1) * b == q * b - b;
  }

  lemma FloorWithin(a: real, b: real, q: int)
    requires b > 0.0
    requires q as real * b <= a < q as real * b + b
    ensures (a / b).Floor == q
  {
    var x := a / b;
    assert x * b == a;
    var low, high := x - q as real, x - q as real - 1.0;
    assert low * b == a - q as real * b;
    assert high * b == a - q as real * b - b;
    assert low >= 0.0 && high < 0.0;
  }

  lemma FlipSigns(a: real, b: real)
    requires b != 0.0
    ensures a / b == (-a) / (-b)
  {
    assert a / b * -b == -a;
  }

  /** floorDiv is the floor of the exact quotient, for both signs of both operands. */
  lemma FloorDivIsFloor(a: int, b: int)
    requires b != 0
    ensures FloorDiv(a, b) == (a as real / b as real).Floor
  {
    hide FloorDiv;
    FloorDivBounds(a, b);
    var q := FloorDiv(a, b);
    if b > 0 {
      assert (q * b) as real == q as real * b as real;
      FloorWithin(a as real, b as real, q);
    } else {
      assert (q * -b) as real == q as real * (-b) as real;
      FlipSigns(a as real, b as real);
      FloorWithin((-a) as real, (-b) as real, q);
    }
  }
}
