// The ease-out mouse trail: interpolated points in exact arithmetic.
module MouseTrail {

  datatype Point = Point(x: int, y: int)

  /** Conversion to int32_t drops the fraction: it rounds toward zero. */
  function Truncated(r: real): int {
    if r >= 0.0 then r.Floor else -((-r).Floor)
  }

  function EaseOut(t: real): real {
    1.0 - (1.0 - t) * (1.0 - t)
  }

  function Fraction(i: int, steps: int): real
    requires steps >= 1
  {
    i as real / steps as real
  }

  /** The eased fraction of the way after step `i` of `steps`. */
  function Eased(i: int, steps: int): real
    requires steps >= 1
  {
    EaseOut(Fraction(i, steps))
  }

  function Portion(d: int, e: real): real {
    d as real * e
  }

  /** The fraction `e` of `d` without its digits after the point. */
  function Share(d: int, e: real): int {
    Truncated(Portion(d, e))
  }

  /** How far the coordinate has moved by step `i`. */
  function Shift(a: int, b: int, i: int, steps: int): int
    requires steps >= 1
  {
    Share(b - a, Eased(i, steps))
  }

  function At(a: int, b: int, i: int, steps: int): int
    requires steps >= 1
  {
    a + Shift(a, b, i, steps)
  }

  function PointAt(p: Point, q: Point, i: int, steps: int): Point
    requires steps >= 1
  {
    Point(At(p.x, q.x, i, steps), At(p.y, q.y, i, steps))
  }

  // ---------- arithmetic ----------

  lemma Scaled(d: real, e: real, f: real)
    requires e <= f
    ensures d >= 0.0 ==> d * e <= d * f
    ensures d <= 0.0 ==> d * e >= d * f
  {
    var g := f - e;
    assert d * f == d * e + d * g;
  }

  lemma ProductGrows(a: real, b: real, c: real, d: real)
    requires 0.0 <= a <= b && 0.0 <= c <= d
    ensures a * c <= b * d
  {
    var g, h := b - a, d - c;
    assert b * d == a * c + a * h + g * c + g * h;
    assert a * h >= 0.0 && g * c >= 0.0 && g * h >= 0.0;
  }

  lemma SquaresGrow(v: real, u: real)
    requires 0.0 <= v <= u <= 1.0
    ensures 0.0 <= v * v <= u * u <= 1.0
  {
    ProductGrows(0.0, v, 0.0, v);
    ProductGrows(v, u, v, u);
    ProductGrows(u, 1.0, u, 1.0);
  }

  lemma EaseOutGrows(t: real, t': real)
    requires 0.0 <= t <= t' <= 1.0
    ensures 0.0 <= EaseOut(t) <= EaseOut(t') <= 1.0
  {
    SquaresGrow(1.0 - t', 1.0 - t);
  }

  lemma FractionGrows(i: int, j: int, steps: int)
    requires steps >= 1 && i <= j
    ensures Fraction(i, steps) <= Fraction(j, steps)
  {
    var h := 1.0 / steps as real;
    assert h >= 0.0;
    assert Fraction(i, steps) == h * i as real && Fraction(j, steps) == h * j as real;
    Scaled(h, i as real, j as real);
  }

  lemma FractionEnds(steps: int)
    requires steps >= 1
    ensures Fraction(0, steps) == 0.0 && Fraction(steps, steps) == 1.0
  {
  }

  lemma EaseOutEnds()
    ensures EaseOut(0.0) == 0.0 && EaseOut(1.0) == 1.0
  {
  }

  /** The eased fraction grows from 0 to 1. */
  lemma EasedGrows(i: int, j: int, steps: int)
    requires steps >= 1 && 0 <= i <= j <= steps
    ensures 0.0 <= Eased(i, steps) <= Eased(j, steps) <= 1.0
    ensures Eased(0, steps) == 0.0 && Eased(steps, steps) == 1.0
  {
    hide Fraction, EaseOut;
    FractionEnds(steps);
    EaseOutEnds();
    FractionGrows(0, i, steps);
    FractionGrows(i, j, steps);
    FractionGrows(j, steps, steps);
    EaseOutGrows(Fraction(i, steps), Fraction(j, steps));
  }

  /** The unrounded steps get shorter: fast at first, slow toward the end. */
  lemma EasedSlowsDown(i: int, steps: int)
    requires steps >= 1 && 1 <= i < steps
    ensures Eased(i + 1, steps) - Eased(i, steps) < Eased(i, steps) - Eased(i - 1, steps)
  {
    var s := steps as real;
    var h := 1.0 / s;
    assert h > 0.0;
    var t := i as real / s;
    assert (i + 1) as real / s == t + h;
    assert (i - 1) as real / s == t - h;
    assert h * h > 0.0;
    var u := 1.0 - t;
    assert (u - h) * (u - h) == u * u - 2.0 * (u * h) + h * h;
    assert (u + h) * (u + h) == u * u + 2.0 * (u * h) + h * h;
  }

  /** What is left of the way shrinks with the square of the steps left. */
  lemma EaseIsQuadratic(i: int, steps: int)
    requires steps >= 1
    ensures (1.0 - Eased(i, steps)) * (steps * steps) as real == ((steps - i) * (steps - i)) as real
  {
    var s, t := steps as real, i as real / steps as real;
    assert t * s == i as real;
    var left := (1.0 - t) * s;
    assert left == (steps - i) as real;
    assert (1.0 - Eased(i, steps)) * (s * s) == left * left;
    assert (steps * steps) as real == s * s;
    assert ((steps - i) * (steps - i)) as real == (steps - i) as real * (steps - i) as real;
  }

  lemma TruncatedRange(r: real, d: int)
    ensures 0.0 <= r <= d as real ==> 0 <= Truncated(r) <= d
    ensures d as real <= r <= 0.0 ==> d <= Truncated(r) <= 0
  {
  }

  lemma TruncatedGrows(r: real, r': real)
    requires r <= r'
    ensures Truncated(r) <= Truncated(r')
  {
  }

  lemma PortionGrows(d: int, e: real, f: real)
    requires e <= f
    ensures d >= 0 ==> Portion(d, e) <= Portion(d, f)
    ensures d <= 0 ==> Portion(d, e) >= Portion(d, f)
  {
    Scaled(d as real, e, f);
  }

  lemma PortionEnds(d: int)
    ensures Portion(d, 0.0) == 0.0 && Portion(d, 1.0) == d as real
  {
  }

  lemma ShareBetween(d: int, e: real)
    requires 0.0 <= e <= 1.0
    ensures d >= 0 ==> 0 <= Share(d, e) <= d
    ensures d <= 0 ==> d <= Share(d, e) <= 0
  {
    hide Truncated, Portion;
    PortionEnds(d);
    PortionGrows(d, 0.0, e);
    PortionGrows(d, e, 1.0);
    TruncatedRange(Portion(d, e), d);
  }

  lemma ShareMonotone(d: int, e: real, f: real)
    requires 0.0 <= e <= f
    ensures d >= 0 ==> Share(d, e) <= Share(d, f)
    ensures d <= 0 ==> Share(d, e) >= Share(d, f)
  {
    hide Truncated, Portion;
    PortionGrows(d, e, f);
    if d >= 0 {
      TruncatedGrows(Portion(d, e), Portion(d, f));
    }
    if d <= 0 {
      TruncatedGrows(Portion(d, f), Portion(d, e));
    }
  }

  // ---------- the trail ----------

  /** `v` lies between `a` and `b`, whichever is the larger. */
  predicate Between(v: int, a: int, b: int) {
    a <= v <= b || b <= v <= a
  }

  lemma ShiftBetween(a: int, b: int, i: int, steps: int)
    requires steps >= 1 && 0 <= i <= steps
    ensures a <= b ==> 0 <= Shift(a, b, i, steps) <= b - a
    ensures a >= b ==> b - a <= Shift(a, b, i, steps) <= 0
  {
    hide Share, Eased;
    EasedGrows(i, i, steps);
    ShareBetween(b - a, Eased(i, steps));
  }

  lemma ShiftGrows(a: int, b: int, i: int, j: int, steps: int)
    requires steps >= 1 && 0 <= i <= j <= steps
    ensures a <= b ==> Shift(a, b, i, steps) <= Shift(a, b, j, steps)
    ensures a >= b ==> Shift(a, b, i, steps) >= Shift(a, b, j, steps)
  {
    hide Share, Eased;
    EasedGrows(i, j, steps);
    ShareMonotone(b - a, Eased(i, steps), Eased(j, steps));
  }

  lemma CoordinateBetween(a: int, b: int, i: int, steps: int)
    requires steps >= 1 && 0 <= i <= steps
    ensures Between(At(a, b, i, steps), a, b)
  {
    hide Shift;
    ShiftBetween(a, b, i, steps);
  }

  lemma CoordinateMonotone(a: int, b: int, i: int, j: int, steps: int)
    requires steps >= 1 && 0 <= i <= j <= steps
    ensures Between(At(a, b, j, steps), At(a, b, i, steps), b)
  {
    hide Shift;
    ShiftBetween(a, b, j, steps);
    ShiftGrows(a, b, i, j, steps);
  }

  lemma TruncatedIsNear(r: real)
    ensures r >= 0.0 ==> r - 1.0 < Truncated(r) as real <= r
    ensures r <= 0.0 ==> r <= Truncated(r) as real < r + 1.0
  {
  }

  /** Each coordinate is the exact point of the way, rounded back toward the start by less than one. */
  lemma CoordinateIsRounded(a: int, b: int, i: int, steps: int)
    requires steps >= 1
    ensures var way := Portion(b - a, Eased(i, steps)); var moved := (At(a, b, i, steps) - a) as real;
      && (way >= 0.0 ==> way - 1.0 < moved <= way)
      && (way <= 0.0 ==> way <= moved < way + 1.0)
  {
    hide Truncated, Portion, Eased;
    TruncatedIsNear(Portion(b - a, Eased(i, steps)));
  }

  lemma CoordinateEnds(a: int, b: int, steps: int)
    requires steps >= 1
    ensures At(a, b, 0, steps) == a && At(a, b, steps, steps) == b
  {
    hide Eased;
    EasedGrows(0, steps, steps);
    var d := (b - a) as real;
    assert d * 0.0 == 0.0 && d * 1.0 == d;
  }

  /** Each coordinate lies between its start and its end. */
  lemma TrailStaysBetween(p: Point, q: Point, i: int, steps: int)
    requires steps >= 1 && 0 <= i <= steps
    ensures Between(PointAt(p, q, i, steps).x, p.x, q.x)
    ensures Between(PointAt(p, q, i, steps).y, p.y, q.y)
  {
    hide At;
    CoordinateBetween(p.x, q.x, i, steps);
    CoordinateBetween(p.y, q.y, i, steps);
  }

  /** Each coordinate moves toward its end and never back. */
  lemma TrailIsMonotone(p: Point, q: Point, i: int, j: int, steps: int)
    requires steps >= 1 && 0 <= i <= j <= steps
    ensures Between(PointAt(p, q, j, steps).x, PointAt(p, q, i, steps).x, q.x)
    ensures Between(PointAt(p, q, j, steps).y, PointAt(p, q, i, steps).y, q.y)
  {
    hide At;
    CoordinateMonotone(p.x, q.x, i, j, steps);
    CoordinateMonotone(p.y, q.y, i, j, steps);
  }

  /** The trail starts at the start and ends exactly at the end. */
  lemma TrailEnds(p: Point, q: Point, steps: int)
    requires steps >= 1
    ensures PointAt(p, q, 0, steps) == p && PointAt(p, q, steps, steps) == q
  {
    hide At;
    CoordinateEnds(p.x, q.x, steps);
    CoordinateEnds(p.y, q.y, steps);
  }

  /** Injects the points of the trail; `accepted(k)` is whether the system takes the k-th and `cost(k)`
      how long that took. The trail ends at q whenever it has any point. */
  method Trail(p: Point, q: Point, steps: int, accepted: nat -> bool, cost: nat -> nat)
    returns (points: seq<Point>, totalStepMs: nat, maxStepMs: nat, failCount: nat)
    ensures |points| == (if steps >= 1 then steps else 0)
    ensures forall k :: 0 <= k < |points| ==> points[k] == PointAt(p, q, k + 1, steps)
    ensures points != [] ==> points[|points| - 1] == q
    ensures IsMaximum(maxStepMs, cost, |points|)
    ensures totalStepMs == Sum(cost, |points|)
    ensures failCount == Count(accepted, |points|)
  {
    hide Share;
    points, totalStepMs, maxStepMs, failCount := [], 0, 0, 0;
    var i := 1;
    while i <= steps
      invariant 1 <= i && (steps >= 1 ==> i <= steps + 1) && (steps < 1 ==> i == 1)
      invariant |points| == i - 1
      invariant forall k :: 0 <= k < |points| ==> points[k] == PointAt(p, q, k + 1, steps)
      invariant IsMaximum(maxStepMs, cost, |points|)
      invariant totalStepMs == Sum(cost, |points|)
      invariant failCount == Count(accepted, |points|)
    {
      var t := i as real / steps as real;
      var eased := 1.0 - (1.0 - t) * (1.0 - t);
      var x := p.x + Share(q.x - p.x, eased);
      var y := p.y + Share(q.y - p.y, eased);
      assert eased == Eased(i, steps);
      assert x == At(p.x, q.x, i, steps) && y == At(p.y, q.y, i, steps);
      points := points + [Point(x, y)];
      var stepMs := cost(i - 1);
      totalStepMs := totalStepMs + stepMs;
      if stepMs > maxStepMs {
        maxStepMs := stepMs;
      }
      if !accepted(i - 1) {
        failCount := failCount + 1;
      }
      i := i + 1;
    }
    if steps >= 1 {
      TrailEnds(p, q, steps);
    }
  }

  ghost predicate IsMaximum(m: nat, cost: nat -> nat, n: nat) {
    && (forall k: nat :: k < n ==> cost(k) <= m)
    && (m == 0 || exists k: nat :: k < n && cost(k) == m)
  }

  ghost function Sum(cost: nat -> nat, n: nat): nat {
    if n == 0 then 0 else Sum(cost, n - 1) + cost(n - 1)
  }

  /** How many of the first `n` were refused. */
  ghost function Count(accepted: nat -> bool, n: nat): nat {
    if n == 0 then 0 else Count(accepted, n - 1) + (if accepted(n - 1) then 0 else 1)
  }
}
