/** Ceiling division, as `Math.ceil(a / b)` gives it for the sizes in use. */
module PartArithmetic {
  function CeilDiv(a: nat, b: nat): nat
    requires b > 0
  {
    (a + b - 1) / b
  }

  function Max(a: int, b: int): int {
    if a < b then b else a
  }

  /** The ceiling is the one count whose last part is neither empty nor too long. */
  lemma CeilDivBounds(a: nat, b: nat)
    requires a > 0 && b > 0
    ensures var c := CeilDiv(a, b); c >= 1 && b * (c - 1) < a <= b * c
  {
    var c := CeilDiv(a, b);
    var r := (a + b - 1) % b;
    assert a + b - 1 == b * c + r;
    assert b * (c - 1) == b * c - b;
    assert c > 0;
  }

  /** What the last part has to hold, an empty file's single part included. */
  lemma LastPartRoom(a: nat, b: nat, n: int)
    requires b > 0 && n == Max(1, CeilDiv(a, b))
    ensures 0 <= a - b * (n - 1) <= b
  {
    if a > 0 {
      CeilDivBounds(a, b);
      assert b * n == b * (n - 1) + b;
    } else {
      assert CeilDiv(0, b) == 0;
    }
  }

  /** The part count is the least one, and at least 1, whose parts hold everything. */
  lemma CeilDivAtMost(a: nat, b: nat, n: int)
    requires b > 0
    ensures Max(1, CeilDiv(a, b)) <= n <==> 1 <= n && a <= n * b
  {
    if a > 0 {
      CeilDivBounds(a, b);
      var c := CeilDiv(a, b);
      if c <= n {
        Scale(b, c, n);
      } else {
        Scale(b, n, c - 1);
      }
    } else {
      assert CeilDiv(0, b) == 0;
    }
  }

  lemma CountIsUnique(a: nat, b: nat, c: nat, d: nat)
    requires a > 0 && b > 0
    requires b * (c - 1) < a <= b * c && b * (d - 1) < a <= b * d
    ensures c == d
  {
    if c < d {
      Scale(b, c, d - 1);
    } else if d < c {
      Scale(b, d, c - 1);
    }
  }

  lemma Scale(b: nat, x: int, y: int)
    requires x <= y
    ensures b * x <= b * y
  {
  }

  lemma ProductBound(x: nat, y: nat, mx: nat, my: nat)
    requires x <= mx && y <= my
    ensures x * y <= mx * my
  {
    assert x * y <= mx * y;
    assert mx * y <= mx * my;
  }
}
