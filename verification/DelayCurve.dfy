// The delay curve: linear interpolation between fix points, cut to whole
// milliseconds.

module DelayCurve {

  /** Conversion of a number to an integer cuts towards zero. */
  function Trunc(x: real): int {
    if x >= 0.0 then x.Floor else -(-x).Floor
  }

  function TruncDiv(x: int, r: nat): int
    requires r > 0
  {
    if x >= 0 then x / r else -(-x / r)
  }

  /** The value a steps of r after fix point d0 on the way to fix point d1. */
  function Value(d0: int, d1: int, r: nat, a: nat): int
    requires r > 0
  {
    TruncDiv(d0 * (r - a) + d1 * a, r)
  }

  /** The first n values on the way from d0 to d1. */
  function Steps(d0: int, d1: int, r: nat, n: nat): seq<int>
    requires r > 0
  {
    seq(n, a requires 0 <= a => Value(d0, d1, r, a))
  }

  /** The first i segments of a curve through the fix points ds. */
  function Segments(ds: seq<int>, r: nat, i: nat): seq<int>
    requires i < |ds|
  {
    if i == 0 || r == 0 then []
    else Segments(ds, r, i - 1) + Steps(ds[i - 1], ds[i], r, r)
  }

  /** The curve goes through all fix points and back to the first. */
  function Curve(delays: seq<int>, r: nat): seq<int>
    requires delays != []
  {
    Segments(delays + [delays[0]], r, |delays|)
  }

  /** The fix point after the last is the first. */
  function Next(delays: seq<int>, i: nat): nat {
    if i + 1 == |delays| then 0 else i + 1
  }

  // ---------- Arithmetic ----------

  lemma ScaleLess(x: real, y: real, c: real)
    requires x < y && c > 0.0
    ensures x * c < y * c
  {
  }

  lemma RealQuotient(x: real, q: real, c: real)
    requires c > 0.0 && q * c <= x < (q + 1.0) * c
    ensures q <= x / c < q + 1.0
  {
    var y, upper := x / c, q + 1.0;
    assert y * c == x && y != upper;
    if y < q {
      ScaleLess(y, q, c);
    } else if upper < y {
      ScaleLess(upper, y, c);
    }
  }

  lemma FloorOfQuotient(x: nat, r: nat)
    requires r > 0
    ensures (x as real / r as real).Floor == x / r
  {
    var q := x / r;
    assert x == q * r + x % r;
    assert (q * r) as real == q as real * r as real;
    assert ((q + 1) * r) as real == (q + 1) as real * r as real && (q + 1) * r == q * r + r;
    RealQuotient(x as real, q as real, r as real);
  }

  lemma TruncOfQuotient(x: int, r: nat)
    requires r > 0
    ensures Trunc(x as real / r as real) == TruncDiv(x, r)
  {
    if x >= 0 {
      FloorOfQuotient(x, r);
      assert x as real / r as real >= 0.0;
    } else {
      FloorOfQuotient(-x, r);
      assert x as real / r as real < 0.0;
      assert -(x as real / r as real) == (-x) as real / r as real;
    }
  }

  /** What the interpolation loop adds in turn a, starting from the value first. */
  function Extrapolated(d0: int, d1: int, first: int, r: int, a: int): int
    requires r > 0
  {
    Trunc((d1 as real - d0 as real) / r as real * a as real + first as real)
  }

  /** Exactly computed, it is the value between the fix points. */
  lemma ExtrapolatesExactly(d0: int, d1: int, r: nat, a: nat)
    requires r > 0
    ensures Extrapolated(d0, d1, d0, r, a) == Value(d0, d1, r, a)
  {
    var x := d0 * (r - a) + d1 * a;
    assert x == (d1 - d0) * a + d0 * r;
    assert (d1 as real - d0 as real) * a as real + d0 as real * r as real == x as real by {
      assert ((d1 - d0) * a) as real == (d1 - d0) as real * a as real;
      assert (d0 * r) as real == d0 as real * r as real;
    }
    var y := (d1 as real - d0 as real) / r as real * a as real + d0 as real;
    assert y * r as real == x as real;
    assert y == x as real / r as real;
    TruncOfQuotient(x, r);
  }

  lemma MulStep(a: int, b: int, r: nat)
    requires a < b
    ensures a * r + r <= b * r
  {
    Distribute(a, 1, r);
    Distribute(a + 1, b - a - 1, r);
    assert (b - a - 1) * r >= 0;
  }

  lemma Distribute(x: int, y: int, r: nat)
    ensures (x + y) * r == x * r + y * r
  {
  }

  lemma Quotient(x: int, q: int, r: nat)
    requires r > 0 && q * r <= x < q * r + r
    ensures x / r == q
  {
    var p := x / r;
    assert x == p * r + x % r;
    if p < q {
      MulStep(p, q, r);
    } else if q < p {
      MulStep(q, p, r);
    }
  }

  lemma DivMul(d: int, r: nat)
    requires r > 0
    ensures d * r / r == d
  {
    Quotient(d * r, d, r);
  }

  lemma QuotientMonotone(x: int, y: int, r: nat)
    requires r > 0 && x <= y
    ensures x / r <= y / r
  {
    var p, q := x / r, y / r;
    assert x == p * r + x % r && y == q * r + y % r;
    if q < p {
      MulStep(q, p, r);
    }
  }

  lemma DivMonotone(x: int, y: int, r: nat)
    requires r > 0 && x <= y
    ensures TruncDiv(x, r) <= TruncDiv(y, r)
  {
    QuotientMonotone(0, if x >= 0 then x else -x, r);
    QuotientMonotone(0, if y >= 0 then y else -y, r);
    QuotientMonotone(x, y, r);
    QuotientMonotone(-y, -x, r);
    DivMul(0, r);
  }

  // ---------- Properties of the curve ----------

  lemma OneStepMore(d0: int, d1: int, r: nat, n: nat)
    requires r > 0
    ensures Steps(d0, d1, r, n + 1) == Steps(d0, d1, r, n) + [Value(d0, d1, r, n)]
  {
  }

  /** The curve passes through its fix points. */
  lemma FixPoints(d0: int, d1: int, r: nat)
    requires r > 0
    ensures Value(d0, d1, r, 0) == d0 && Value(d0, d1, r, r) == d1
  {
    DivMul(if d0 >= 0 then d0 else -d0, r);
    DivMul(if d1 >= 0 then d1 else -d1, r);
    assert d0 >= 0 ==> d0 * r >= 0;
    assert d1 >= 0 ==> d1 * r >= 0;
    assert d0 < 0 ==> d0 * r < 0 && -(d0 * r) == -d0 * r;
    assert d1 < 0 ==> d1 * r < 0 && -(d1 * r) == -d1 * r;
    assert d0 * (r - 0) + d1 * 0 == d0 * r && d0 * (r - r) + d1 * r == d1 * r;
  }

  /** Going from one fix point to the next takes in both. */
  lemma StepsMeetFixPoints(d0: int, d1: int, r: nat)
    requires r > 0
    ensures Steps(d0, d1, r, 1) == [d0] && Steps(d0, d1, r, r + 1) == Steps(d0, d1, r, r) + [d1]
  {
    FixPoints(d0, d1, r);
    OneStepMore(d0, d1, r, r);
  }

  /** Between two fix points the curve goes one way. */
  lemma SegmentIsMonotone(d0: int, d1: int, r: nat, a: nat, b: nat)
    requires r > 0 && a <= b <= r
    ensures d0 <= d1 ==> Value(d0, d1, r, a) <= Value(d0, d1, r, b)
    ensures d1 <= d0 ==> Value(d0, d1, r, b) <= Value(d0, d1, r, a)
  {
    hide Value;
    Slope(d0, d1, r, a, b);
    if d0 <= d1 {
      ValueMonotone(d0, d1, r, a, b);
    }
    if d1 <= d0 {
      ValueMonotone(d0, d1, r, b, a);
    }
  }

  lemma ValueMonotone(d0: int, d1: int, r: nat, a: nat, b: nat)
    requires r > 0 && d0 * (r - a) + d1 * a <= d0 * (r - b) + d1 * b
    ensures Value(d0, d1, r, a) <= Value(d0, d1, r, b)
  {
    DivMonotone(d0 * (r - a) + d1 * a, d0 * (r - b) + d1 * b, r);
  }

  lemma Slope(d0: int, d1: int, r: nat, a: nat, b: nat)
    requires a <= b
    ensures var x, y := d0 * (r - a) + d1 * a, d0 * (r - b) + d1 * b;
      (d0 <= d1 ==> x <= y) && (d1 <= d0 ==> y <= x)
  {
    var x, y := d0 * (r - a) + d1 * a, d0 * (r - b) + d1 * b;
    assert y - x == (d1 - d0) * (b - a);
    assert d0 <= d1 ==> (d1 - d0) * (b - a) >= 0;
    assert d1 <= d0 ==> (d0 - d1) * (b - a) >= 0;
    assert (d1 - d0) * (b - a) == -((d0 - d1) * (b - a));
  }

  /** Every value lies between its two fix points. */
  lemma ValueBetweenFixPoints(d0: int, d1: int, r: nat, a: nat)
    requires r > 0 && a <= r
    ensures d0 <= d1 ==> d0 <= Value(d0, d1, r, a) <= d1
    ensures d1 <= d0 ==> d1 <= Value(d0, d1, r, a) <= d0
  {
    FixPoints(d0, d1, r);
    SegmentIsMonotone(d0, d1, r, 0, a);
    SegmentIsMonotone(d0, d1, r, a, r);
  }

  /** A value is the interpolated number rounded down exactly when that number is not
      negative or is whole. */
  lemma RoundsDownUnlessNegative(d0: int, d1: int, r: nat, a: nat)
    requires r > 0 && a <= r
    ensures var x := d0 * (r - a) + d1 * a;
      Value(d0, d1, r, a) == x / r <==> x >= 0 || x % r == 0
  {
    var x := d0 * (r - a) + d1 * a;
    if x < 0 {
      var p, q := x / r, -x / r;
      assert p * r <= x < p * r + r && q * r <= -x < q * r + r;
      assert x % r == x - p * r;
      if -q == p {
        assert -q * r == -(q * r);
      }
      if x % r == 0 {
        assert -x == -p * r;
        DivMul(-p, r);
      }
    }
  }

  /** Half way from -1 to 0 the curve has 0, and rounding down would give -1. */
  lemma NegativeDelayRoundsUp()
    ensures Value(-1, 0, 2, 1) == 0 && (-1 * 1 + 0 * 1) / 2 == -1
  {
  }

  lemma {:induction false} SegmentsIndex(ds: seq<int>, r: nat, n: nat, i: nat, a: nat)
    requires i < n < |ds| && a < r
    ensures |Segments(ds, r, n)| == n * r && i * r + a < n * r
    ensures Segments(ds, r, n)[i * r + a] == Value(ds[i], ds[i + 1], r, a)
  {
    SegmentsLength(ds, r, n);
    SegmentsLength(ds, r, n - 1);
    if i == n - 1 {
      assert n * r == i * r + r;
    } else {
      SegmentsIndex(ds, r, n - 1, i, a);
    }
  }

  lemma {:induction false} SegmentsLength(ds: seq<int>, r: nat, n: nat)
    requires n < |ds|
    ensures |Segments(ds, r, n)| == n * r
  {
    if n > 0 && r > 0 {
      SegmentsLength(ds, r, n - 1);
      assert n * r == (n - 1) * r + r;
    }
  }

  /** The curve through n fix points has r values for each of them; value a after fix
      point i lies a parts in r of the way to the next, the last going back to the first. */
  lemma CurveIndex(delays: seq<int>, r: nat, i: nat, a: nat)
    requires i < |delays| && a < r
    ensures |Curve(delays, r)| == |delays| * r && i * r + a < |delays| * r
    ensures Curve(delays, r)[i * r + a] == Value(delays[i], delays[Next(delays, i)], r, a)
  {
    hide Value;
    var n, ds := |delays|, delays + [delays[0]];
    SegmentsIndex(ds, r, n, i, a);
    assert ds[i] == delays[i] && ds[i + 1] == delays[Next(delays, i)];
  }

  /** That is all the curve has; with no resolution, nothing. */
  lemma CurveLength(delays: seq<int>, r: nat)
    requires delays != []
    ensures |Curve(delays, r)| == |delays| * r
  {
    SegmentsLength(delays + [delays[0]], r, |delays|);
  }
}
