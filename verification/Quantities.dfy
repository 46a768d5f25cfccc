/** How a line's quantity is stored: `floatToNumeric` prints eight decimals, the DECIMAL(18,4) column
    rounds to four. The subtotal beside it was computed from the quantity as typed. */
module Quantities {
  import opened DocumentTotals

  const UNITS8: real := 100_000_000.0
  const UNITS4: real := 10_000.0

  /** `%.8f` rounds to the nearest, ties to even. */
  function NearestEven(x: real): int {
    var f := x.Floor;
    var d := x - f as real;
    if d < 0.5 || (d == 0.5 && f % 2 == 0) then f else f + 1
  }

  function Printed(q: real): real {
    NearestEven(q * UNITS8) as real / UNITS8
  }

  /** The quantity that is read back. */
  function Stored(q: real): real {
    Round(Printed(q) * UNITS4) as real / UNITS4
  }

  /** A quantity with at most four decimals. */
  predicate FourDecimals(q: real) {
    (q * UNITS4).Floor as real == q * UNITS4
  }

  lemma RoundOfInteger(n: int)
    ensures Round(n as real) == n && NearestEven(n as real) == n
  {
  }

  /** Storing keeps a quantity exactly when it has at most four decimals. */
  lemma StoredIffFourDecimals(q: real)
    ensures Stored(q) == q <==> FourDecimals(q)
  {
    if FourDecimals(q) {
      var n := (q * UNITS4).Floor;
      assert q * UNITS8 == (n * 10_000) as real;
      RoundOfInteger(n * 10_000);
      assert Printed(q) == q;
      RoundOfInteger(n);
    }
  }

  /** Printing gives the nearest number with eight decimals, on a tie the one with an even last digit. */
  lemma PrintedIsNearest(q: real) returns (n: int)
    ensures Printed(q) == n as real / 100_000_000.0
    ensures -0.5 <= n as real - q * 100_000_000.0 <= 0.5
    ensures n as real - q * 100_000_000.0 == -0.5 || n as real - q * 100_000_000.0 == 0.5 ==> n % 2 == 0
  {
    n := NearestEven(q * 100_000_000.0);
  }

  lemma StoredIsNear(q: real)
    ensures -0.000050005 <= Stored(q) - q <= 0.000050005
  {
    var x := Printed(q) * UNITS4;
    RoundIsNearest(x);
    assert -0.5 <= NearestEven(q * UNITS8) as real - q * UNITS8 <= 0.5;
  }

  function Abs(x: real): real {
    if x < 0.0 then -x else x
  }

  lemma TimesDifference(p: int, a: real, b: real)
    ensures Times(p, a) - Times(p, b) == Times(p, a - b)
  {
  }

  lemma TimesBound(p: int, d: real, e: real)
    requires -e <= d <= e
    ensures -Abs(p as real) * e <= Times(p, d) <= Abs(p as real) * e
  {
    if p >= 0 {
      assert p as real * d <= p as real * e && p as real * d >= p as real * -e;
    } else {
      assert p as real * d <= p as real * -e && p as real * d >= p as real * e;
    }
  }

  /** A stored subtotal lies within half a minor unit, plus the price times the storage error, of price
      times stored quantity. */
  lemma SubtotalIsClose(p: int, q: real)
    ensures Abs(Round(Times(p, q)) as real - Times(p, Stored(q))) <= 0.5 + Abs(p as real) * 0.000050005
  {
    RoundIsNearest(Times(p, q));
    StoredIsNear(q);
    hide Round, Stored, Times;
    TimesDifference(p, q, Stored(q));
    TimesBound(p, q - Stored(q), 0.000050005);
  }

  lemma LargeEnough(d: real) returns (p: int)
    requires d > 0.0
    ensures Times(p, d) > 2.0 && Times(p, -d) == -Times(p, d)
  {
    var x := 2.0 / d;
    p := x.Floor + 1;
    assert x * d == 2.0;
    Grows(x, p as real, d);
    assert p as real * -d == -(p as real * d);
  }

  lemma Grows(x: real, y: real, d: real)
    requires x < y && d > 0.0
    ensures x * d < y * d
  {
  }

  /** Some price tells two different quantities apart. */
  lemma PriceTellsApart(a: real, b: real) returns (p: int)
    requires a != b
    ensures Round(Times(p, a)) != Round(Times(p, b))
  {
    hide Times;
    p := LargeEnough(Abs(a - b));
    RoundIsNearest(Times(p, a));
    RoundIsNearest(Times(p, b));
    hide Round;
    TimesDifference(p, a, b);
    assert a - b == Abs(a - b) || a - b == -Abs(a - b);
  }

  /** The subtotal can be recomputed from the stored quantity, whatever the price, exactly when the
      quantity has at most four decimals. */
  lemma RecomputesIff(q: real)
    ensures (forall p: int :: Round(Times(p, Stored(q))) == Round(Times(p, q))) <==> FourDecimals(q)
  {
    StoredIffFourDecimals(q);
    hide Round, Stored, Times, FourDecimals;
    if Stored(q) != q {
      var p := PriceTellsApart(Stored(q), q);
    }
  }

  /** A price of 1,000,000 and a quantity of 0.00005: the stored subtotal is 50, the stored quantity
      0.0001, and their product 100. */
  lemma RecomputationCanFail()
    ensures Round(Times(1_000_000, 0.00005)) == 50
    ensures Stored(0.00005) == 0.0001 && Round(Times(1_000_000, Stored(0.00005))) == 100
  {
    assert Printed(0.00005) == 0.00005;
  }
}
